/** Wrong transfers show.  Two lists of transfers can differ and still have the same effect, so here the
    conditions of `Steps` and `Defects`, which compare lists, are carried over to memory: where the lists differ
    some memory tells them apart, and where that is not so the exact condition is another. */
module Visibility {
  import opened Arithmetic
  import opened Datatypes
  import opened Typemap
  import opened Wellformed
  import opened Bounds
  import opened Machine
  import opened Transfers
  import opened Emission
  import opened Routes
  import opened Support
  import opened ExecTypes
  import opened Steps
  import opened Compilation
  import opened Defects

  /** No byte is both read and written. */
  predicate Separate(ts: seq<Transfer>) {
    forall i, j :: 0 <= i < |ts| && 0 <= j < |ts| ==> ts[i].dst != ts[j].src
  }

  /** Some memory, on which both lists can be done, tells them apart. */
  ghost predicate Visible(ts: seq<Transfer>, us: seq<Transfer>) {
    exists mem: Memory :: Ready(mem, ts) && Ready(mem, us) && Copy(mem, ts) != Copy(mem, us)
  }

  /** Where the byte comes from that address a holds in the end. */
  function Origin(ts: seq<Transfer>, a: int): int {
    var w := Writer(ts, a);
    if w < 0 then a else ts[w].src
  }

  lemma CopyFetches(mem: Memory, ts: seq<Transfer>, a: int)
    requires Ready(mem, ts) && a in mem
    ensures Origin(ts, a) in mem && a in Copy(mem, ts) && Copy(mem, ts)[a] == mem[Origin(ts, a)]
  {
    CopyEffect(mem, ts, a);
  }

  function Addresses(ts: seq<Transfer>): set<int> {
    (set i | 0 <= i < |ts| :: ts[i].dst) + (set i | 0 <= i < |ts| :: ts[i].src)
  }

  /** All the addresses, the byte at `at` one and the others zero. */
  function Probe(ts: seq<Transfer>, us: seq<Transfer>, at: int): Memory {
    map x | x in Addresses(ts) + Addresses(us) :: (if x == at then 1 else 0)
  }

  lemma ProbeIsReady(ts: seq<Transfer>, us: seq<Transfer>, at: int)
    requires Separate(ts) && Separate(us)
    ensures Ready(Probe(ts, us, at), ts) && Ready(Probe(ts, us, at), us)
  {
    forall i | 0 <= i < |ts| ensures ts[i].dst in Addresses(ts) && ts[i].src in Addresses(ts) {}
    forall i | 0 <= i < |us| ensures us[i].dst in Addresses(us) && us[i].src in Addresses(us) {}
  }

  lemma Written(ts: seq<Transfer>, a: int)
    requires Origin(ts, a) != a
    ensures a in Addresses(ts) && Origin(ts, a) in Addresses(ts)
  {
    var w := Writer(ts, a);
    assert ts[w].dst == a;
  }

  /** Lists of transfers differ in memory if and only if some address takes its byte from elsewhere. */
  lemma VisibleExact(ts: seq<Transfer>, us: seq<Transfer>)
    requires Separate(ts) && Separate(us)
    ensures Visible(ts, us) <==> exists a :: Origin(ts, a) != Origin(us, a)
  {
    hide Origin, Ready, Copy, Addresses;
    if a :| Origin(ts, a) != Origin(us, a) {
      var at := Origin(us, a);
      var mem := Probe(ts, us, at);
      ProbeIsReady(ts, us, at);
      if Origin(ts, a) != a { Written(ts, a); } else { Written(us, a); }
      CopyFetches(mem, ts, a);
      CopyFetches(mem, us, a);
      assert mem[Origin(us, a)] == 1 && mem[Origin(ts, a)] == 0;
    }
    if !exists a :: Origin(ts, a) != Origin(us, a) {
      forall mem: Memory | Ready(mem, ts) && Ready(mem, us) ensures Copy(mem, ts) == Copy(mem, us) {
        CopyKeepsKeys(mem, ts);
        CopyKeepsKeys(mem, us);
        forall a | a in mem ensures Copy(mem, ts)[a] == Copy(mem, us)[a] {
          assert Origin(ts, a) == Origin(us, a);
          CopyFetches(mem, ts, a);
          CopyFetches(mem, us, a);
        }
      }
    }
  }

  // ----- lagging routes -----

  /** If a pointer that never runs ahead has visited every position, it has never lagged. */
  lemma {:induction false} AllVisited(q: seq<int>)
    requires forall i :: 0 <= i < |q| ==> 0 <= q[i] <= i
    requires forall p :: 0 <= p < |q| ==> p in q
    ensures forall i :: 0 <= i < |q| ==> q[i] == i
    decreases |q|
  {
    if q != [] {
      var n := |q| - 1;
      assert n in q && q == q[..n] + [q[n]];
      forall p | 0 <= p < n ensures p in q[..n] { assert p in q; }
      AllVisited(q[..n]);
      forall k | 0 <= k < n ensures q[k] == k { assert q[..n][k] == k; }
    }
  }

  /** No two offsets are the same address. */
  ghost predicate Apart(tm: seq<int>, at: int) {
    forall p, q :: 0 <= p < q < |tm| ==> Addr(at, tm[p]) != Addr(at, tm[q])
  }

  /** Both lists send the same bytes everywhere. */
  ghost predicate SameOrigins(ts: seq<Transfer>, us: seq<Transfer>) { forall a :: Origin(ts, a) == Origin(us, a) }

  /** With the same effect as the typemap, every packed position is visited. */
  lemma Visits(pack: bool, r: seq<Hop>, walk: seq<int>, tm: seq<int>, inbuf: int, outbuf: int, p: int)
    requires Behind(pack, r, walk) && |walk| == |tm| <= W && 0 <= p < |tm| && (pack || Apart(tm, outbuf))
    requires Separate(Moves(pack, tm, inbuf, outbuf))
    requires SameOrigins(Along(r, inbuf, outbuf), Moves(pack, tm, inbuf, outbuf))
    ensures var ts, us := Along(r, inbuf, outbuf), Moves(pack, tm, inbuf, outbuf);
      var w := Writer(ts, us[p].dst);
      0 <= w < |r| && Packed(pack, r[w]) == p && ts[w].dst == us[p].dst && ts[w].src == us[p].src
  {
    hide Behind, Apart;
    var ts, us := Along(r, inbuf, outbuf), Moves(pack, tm, inbuf, outbuf);
    var a := us[p].dst;
    OwnWriter(pack, tm, inbuf, outbuf, p);
    assert Origin(us, a) == us[p].src && Origin(ts, a) == Origin(us, a);
    var w := Writer(ts, a);
    LaggingPosition(pack, r, walk, w);
    WrapInjective(if pack then outbuf else inbuf, Packed(pack, r[w]), p);
  }

  lemma LaggingPosition(pack: bool, r: seq<Hop>, walk: seq<int>, w: int)
    requires Behind(pack, r, walk) && 0 <= w < |r|
    ensures |r| == |walk| && 0 <= Packed(pack, r[w]) <= w
  {}

  /** Each position of a typemap is the last writer of its address. */
  lemma OwnWriter(pack: bool, tm: seq<int>, inbuf: int, outbuf: int, p: int)
    requires |tm| <= W && 0 <= p < |tm| && (pack || Apart(tm, outbuf))
    ensures var us := Moves(pack, tm, inbuf, outbuf); Writer(us, us[p].dst) == p
  {
    var us := Moves(pack, tm, inbuf, outbuf);
    var w := Writer(us, us[p].dst);
    assert w >= p && us[w].dst == us[p].dst;
    if pack { WrapInjective(outbuf, w, p); }
  }

  /** A LAGGING ROUTE IS TOLD FROM ITS TYPEMAP by some memory if and only if the lists of transfers differ,
      wherever its data side walks. */
  lemma LagShows(pack: bool, r: seq<Hop>, walk: seq<int>, tm: seq<int>, inbuf: int, outbuf: int)
    requires Behind(pack, r, walk) && |walk| == |tm| <= W && (pack || Apart(tm, outbuf))
    requires Separate(Along(r, inbuf, outbuf)) && Separate(Moves(pack, tm, inbuf, outbuf))
    ensures Visible(Along(r, inbuf, outbuf), Moves(pack, tm, inbuf, outbuf))
       <==> Along(r, inbuf, outbuf) != Moves(pack, tm, inbuf, outbuf)
  {
    hide Behind, Apart, Separate, Visible, Origin, Packed;
    var ts, us := Along(r, inbuf, outbuf), Moves(pack, tm, inbuf, outbuf);
    VisibleExact(ts, us);
    if SameOrigins(ts, us) {
      SameLengths(pack, r, walk);
      var q := seq(|r|, i requires 0 <= i < |r| => Packed(pack, r[i]));
      forall i | 0 <= i < |q| ensures 0 <= q[i] <= i { LaggingPosition(pack, r, walk, i); }
      forall p | 0 <= p < |q| ensures p in q {
        Visits(pack, r, walk, tm, inbuf, outbuf, p);
        assert q[Writer(ts, us[p].dst)] == p;
      }
      AllVisited(q);
      forall p | 0 <= p < |us| ensures ts[p] == us[p] {
        Visits(pack, r, walk, tm, inbuf, outbuf, p);
        assert q[Writer(ts, us[p].dst)] == Writer(ts, us[p].dst);
      }
    }
  }

  lemma SameLengths(pack: bool, r: seq<Hop>, walk: seq<int>)
    requires Behind(pack, r, walk)
    ensures |r| == |walk|
  {}

  // ----- whole trees -----

  /** The code of n items does what the typemap asks for, whatever is in memory. */
  ghost predicate RightInMemory(t: Datatype, pack: bool, n: int, inbuf: int, outbuf: int) {
    !Visible(Along(RouteCopies(t, pack, n), inbuf, outbuf), Moves(pack, Copies(t, n), inbuf, outbuf))
  }

  /** What keeps a call from being judged: a buffer that overlaps the other, or, for unpacking, a typemap that
      writes a byte twice. */
  ghost predicate Judged(t: Datatype, pack: bool, n: int, inbuf: int, outbuf: int) {
    && Separate(Along(RouteCopies(t, pack, n), inbuf, outbuf)) && Separate(Moves(pack, Copies(t, n), inbuf, outbuf))
    && (pack || Apart(Copies(t, n), outbuf))
  }

  /** So the conditions of `Steps` are exact for memory too. */
  lemma PlacedShows(t: Datatype, pack: bool, n: int, inbuf: int, outbuf: int)
    requires Positive(t) && Fits(t) && WellPlaced(t, pack) && n >= 1 && |Copies(t, n)| <= W
    requires Judged(t, pack, n, inbuf, outbuf)
    ensures RightInMemory(t, pack, n, inbuf, outbuf) <==> StepsRight(t, n)
  {
    hide Lags, Positive, Fits, WellPlaced, RouteCopies, Copies, StepsRight, Behind, Separate, Apart, Visible;
    PlacedLags(t, pack);
    LagsCopies(t, pack, n);
    StepsExact(t, pack, n, inbuf, outbuf);
    LagShows(pack, RouteCopies(t, pack, n), Copies(t, n), Copies(t, n), inbuf, outbuf);
  }

  /** And those of `Defects` for misplaced blocks. */
  lemma MisplacedShows(t: Datatype, pack: bool, n: int, inbuf: int, outbuf: int)
    requires t.IndexedBlock? && Positive(t) && Fits(t) && Good(t.base, pack) && n >= 1 && |Copies(t, n)| <= W
    requires Tabled(t) ==> t.base.Primitive?
    requires Judged(t, pack, n, inbuf, outbuf)
    ensures RightInMemory(t, pack, n, inbuf, outbuf) <==> Right(t, pack, n, inbuf, outbuf)
  {
    hide Positive, Fits, Good, Extent, Size, BlocksMap, RouteCopies, Behind, Separate, Apart, Visible, FieldsOf, Copies;
    var places := if Tabled(t) then DisplacementTable(t.displs, t.base) else Scaled(t.displs, Size(t.base));
    if Tabled(t) { TablePlaces(t); } else { UnrolledPlaces(t); }
    SomeDisplacement(t);
    UniformWalk(t, pack, places, n);
    IndexedBlockCopies(t, n);
    var walk := Rep(BlocksMap(places, 1, Copies(t.base, t.blocklen)), Extent(t), n);
    SameWalk(places, 1, t.displs, Extent(t.base), Copies(t.base, t.blocklen), Extent(t), n);
    LagShows(pack, RouteCopies(t, pack, n), walk, Copies(t, n), inbuf, outbuf);
  }

  lemma SomeDisplacement(t: Datatype)
    requires t.IndexedBlock? && Positive(t)
    ensures |t.displs| >= 1 && |DisplacementTable(t.displs, t.base)| == |t.displs|
  {
    hide Size;
  }

  lemma SameWalk(places: seq<int>, a: int, displs: seq<int>, b: int, block: seq<int>, step: int, n: int)
    requires |places| == |displs| && n >= 0
    ensures |Rep(BlocksMap(places, a, block), step, n)| == |Rep(BlocksMap(displs, b, block), step, n)|
  {
    BlocksMapLength(places, a, block);
    BlocksMapLength(displs, b, block);
    RepLength(BlocksMap(places, a, block), step, n);
    RepLength(BlocksMap(displs, b, block), step, n);
  }

  // ----- the emitted functions -----

  /** A legal call returns with other memory than the typemap asks for. */
  ghost predicate Fails(t: Datatype, pack: bool, n: int, inbuf: int, outbuf: int) {
    exists mem, mem': Memory ::
      && Ready(mem, Moves(pack, Copies(t, n), inbuf, outbuf))
      && Reaches(Function(t, pack), Call(mem, inbuf, n, outbuf), Returned(mem'))
      && mem' != Copy(mem, Moves(pack, Copies(t, n), inbuf, outbuf))
  }

  /** WHAT IS WRONG SHOWS: where memory tells the route from the typemap, some legal call of the emitted function
      returns with wrong memory. */
  lemma WrongFails(t: Datatype, pack: bool, n: int, inbuf: int, outbuf: int)
    requires Emittable(t) && Passable(t, inbuf, n, outbuf) && !RightInMemory(t, pack, n, inbuf, outbuf)
    ensures Fails(t, pack, n, inbuf, outbuf)
  {
    hide Emittable, Passable, Ready, Along, Moves, Copies, RouteCopies, Function, Reaches;
    var ts, us := Along(RouteCopies(t, pack, n), inbuf, outbuf), Moves(pack, Copies(t, n), inbuf, outbuf);
    var mem: Memory :| Ready(mem, ts) && Ready(mem, us) && Copy(mem, ts) != Copy(mem, us);
    FunctionPerforms(t, pack, mem, inbuf, n, outbuf);
  }

  // ----- unpacking with pack code -----

  /** Address by address, the typemap undoes itself. */
  ghost predicate Involution(tm: seq<int>) {
    forall p :: 0 <= p < |tm| ==> Wrap(tm[p]) < |tm| && Wrap(tm[Wrap(tm[p])]) == p
  }

  lemma SameAddress(at: int, x: int, p: int)
    requires 0 <= p < W
    ensures Addr(at, x) == Addr(at, p) <==> Wrap(x) == p
  {
    WrapWrap(x, at);
    assert Addr(at, x) == Addr(at, Wrap(x));
    if Addr(at, x) == Addr(at, p) { WrapInjective(at, Wrap(x), p); }
  }

  lemma PackOrigin(tm: seq<int>, inbuf: int, outbuf: int, p: int)
    requires |tm| <= W && 0 <= p < |tm|
    ensures Origin(Moves(true, tm, inbuf, outbuf), Addr(outbuf, p)) == Addr(inbuf, tm[p])
  {
    OwnWriter(true, tm, inbuf, outbuf, p);
    assert Moves(true, tm, inbuf, outbuf)[p].dst == Addr(outbuf, p);
  }

  lemma InvolutionFrom(tm: seq<int>, inbuf: int, outbuf: int)
    requires |tm| <= W && Separate(Moves(true, tm, inbuf, outbuf))
    requires SameOrigins(Moves(true, tm, inbuf, outbuf), Moves(false, tm, inbuf, outbuf))
    ensures Involution(tm)
  {
    var ts, us := Moves(true, tm, inbuf, outbuf), Moves(false, tm, inbuf, outbuf);
    forall p | 0 <= p < |tm| ensures Wrap(tm[p]) < |tm| && Wrap(tm[Wrap(tm[p])]) == p {
      var a := Addr(outbuf, p);
      PackOrigin(tm, inbuf, outbuf, p);
      assert ts[p].dst == a && ts[p].src == Addr(inbuf, tm[p]);
      assert Origin(us, a) == Origin(ts, a) != a;
      var w := Writer(us, a);
      assert us[w].dst == Addr(outbuf, tm[w]) && us[w].src == Addr(inbuf, w);
      SameAddress(outbuf, tm[w], p);
      SameAddress(inbuf, tm[p], w);
    }
  }

  lemma InvolutionTo(tm: seq<int>, inbuf: int, outbuf: int, a: int)
    requires |tm| <= W && Involution(tm)
    ensures Origin(Moves(true, tm, inbuf, outbuf), a) == Origin(Moves(false, tm, inbuf, outbuf), a)
  {
    var ts, us := Moves(true, tm, inbuf, outbuf), Moves(false, tm, inbuf, outbuf);
    var v, w := Writer(ts, a), Writer(us, a);
    if w >= 0 { PackWrites(tm, inbuf, outbuf, w); }
    if v >= 0 {
      assert ts[v].dst == Addr(outbuf, v) == a;
      var q := Wrap(tm[v]);
      SameAddress(outbuf, tm[q], v);
      assert us[q].dst == a;
      assert us[w].dst == Addr(outbuf, tm[w]) == a && us[w].src == Addr(inbuf, w);
      SameAddress(outbuf, tm[w], v);
      assert Wrap(tm[Wrap(tm[w])]) == w;
      SameAddress(inbuf, tm[v], w);
    }
  }

  lemma PackWrites(tm: seq<int>, inbuf: int, outbuf: int, w: int)
    requires |tm| <= W && Involution(tm) && 0 <= w < |tm|
    ensures Writer(Moves(true, tm, inbuf, outbuf), Addr(outbuf, tm[w])) >= 0
  {
    var q := Wrap(tm[w]);
    SameAddress(outbuf, tm[w], q);
    assert Moves(true, tm, inbuf, outbuf)[q].dst == Addr(outbuf, q);
  }

  /** Packing a typemap is unpacking it if and only if the typemap undoes itself. */
  lemma PackIsUnpack(tm: seq<int>, inbuf: int, outbuf: int)
    requires |tm| <= W && Separate(Moves(true, tm, inbuf, outbuf)) && Separate(Moves(false, tm, inbuf, outbuf))
    ensures Visible(Moves(true, tm, inbuf, outbuf), Moves(false, tm, inbuf, outbuf)) <==> !Involution(tm)
  {
    hide Separate, Visible, Origin, Moves, Involution;
    VisibleExact(Moves(true, tm, inbuf, outbuf), Moves(false, tm, inbuf, outbuf));
    if Involution(tm) {
      forall a ensures Origin(Moves(true, tm, inbuf, outbuf), a) == Origin(Moves(false, tm, inbuf, outbuf), a) {
        InvolutionTo(tm, inbuf, outbuf, a);
      }
    } else if SameOrigins(Moves(true, tm, inbuf, outbuf), Moves(false, tm, inbuf, outbuf)) {
      InvolutionFrom(tm, inbuf, outbuf);
    }
  }

  /** Where packing is right, the unpack function of a resized primitive or contiguous type leaves the right memory
      if and only if the typemap of the n items undoes itself. */
  lemma ResizedUnpackShows(t: Datatype, n: int, inbuf: int, outbuf: int)
    requires Resizes(t) && Positive(t) && Fits(t) && Good(t, true) && n >= 1 && |Copies(t, n)| <= W
    requires Separate(Moves(true, Copies(t, n), inbuf, outbuf)) && Separate(Moves(false, Copies(t, n), inbuf, outbuf))
    ensures RightInMemory(t, false, n, inbuf, outbuf) <==> Involution(Copies(t, n))
  {
    hide Resizes, Positive, Fits, Good, Copies, RouteCopies, Separate, Along, Moves, Involution, Visible;
    GoodIsRight(t, true, n, inbuf, outbuf);
    ResizedSameFunction(t);
    PackIsUnpack(Copies(t, n), inbuf, outbuf);
  }

  /** resized(0,1)[ctg(2)[resized(0,2)[char]]]: two items lie at 0, 2, 1, 3, which undoes itself, so pack code unpacks
      them, although its transfers are not those of unpacking. */
  lemma InterleavedExample(inbuf: int, outbuf: int)
    requires Separate(Moves(true, [0, 2, 1, 3], inbuf, outbuf)) && Separate(Moves(false, [0, 2, 1, 3], inbuf, outbuf))
    ensures var t := Resized(0, 1, Contiguous(2, Resized(0, 2, Primitive(CHAR))));
      && Positive(t) && Fits(t) && Copies(t, 2) == [0, 2, 1, 3]
      && RightInMemory(t, false, 2, inbuf, outbuf) && !Right(t, false, 2, inbuf, outbuf)
  {
    hide Resizes, Positive, Fits, Good, Copies, Map, Size, Extent, Separate, RightInMemory, Right, Lb, Ub, IsRun;
    var t := Resized(0, 1, Contiguous(2, Resized(0, 2, Primitive(CHAR))));
    Interleaved(t);
    ResizedUnpackShows(t, 2, inbuf, outbuf);
    ResizedUnpackExact(t, 2, inbuf, outbuf);
  }

  lemma Interleaved(t: Datatype)
    requires t == Resized(0, 1, Contiguous(2, Resized(0, 2, Primitive(CHAR))))
    ensures Positive(t) && Fits(t) && Good(t, true) && Resizes(t) && Copies(t, 2) == [0, 2, 1, 3]
    ensures Size(t.base) == 2 && t.extent == 1
  {
    hide Rep, Good, Copies, Map, Size, Extent, Lb, Ub, Positive, Fits;
    var base := t.base;
    var inner := base.base;
    OneChar();
    ResizedChar(inner);
    RepTwo([0], 2);
    ItemsAreRep(inner, 2);
    TwoInRow(base);
    ResizedWell(t);
    RepTwo([0, 2], 1);
    ItemsAreRep(t, 2);
  }

  lemma ResizedWell(t: Datatype)
    requires t.Resized? && t.lb == 0 && Int32(t.extent) && t.extent >= 1 && Positive(t.base) && Fits(t.base)
    ensures Positive(t) && Fits(t) && Extent(t) == t.extent && Map(t) == Map(t.base) && Size(t) == Size(t.base)
    ensures Lb(t) == 0
  {
    hide Map, Size;
    ExtentOfResized(t);
    BoundsOfResized(t);
    assert Int32(Size(t.base));
  }

  lemma ResizedChar(t: Datatype)
    requires t == Resized(0, 2, Primitive(CHAR))
    ensures Positive(t) && Fits(t) && Good(t, true) && Sized(t) && Size(t) == 1 && Map(t) == [0]
    ensures Extent(t) == 2 && Lb(t) == 0
  {
    hide Map, Size, Extent, Lb, Ub, Positive, Fits;
    OneChar();
    ResizedWell(t);
  }

  lemma TwoInRow(t: Datatype)
    requires t.Contiguous? && t.count == 2 && Positive(t.base) && Fits(t.base) && Good(t.base, true) && Sized(t.base)
    requires Size(t.base) == 1 && Extent(t.base) == 2 && Lb(t.base) == 0
    requires Copies(t.base, 2) == [0, 2]
    ensures Positive(t) && Fits(t) && Size(t) == 2 && Map(t) == [0, 2]
    ensures Good(Resized(0, 1, t), true)
  {
    hide Rep;
  }
}
