/** The WRF exchange both ways: what the compiled functions of the struct leave in the buffer and in the arrays is
    what the hand-written loops leave there. */
module WrfCompilation {
  import opened Arithmetic
  import opened Datatypes
  import opened Typemap
  import opened Wellformed
  import opened Bounds
  import opened Machine
  import opened Transfers
  import opened Support
  import opened Elements
  import opened RoundTrip
  import opened Compilation
  import opened Addressed
  import WrfExchange

  type Element = seq<Byte>

  /** The element x lies in memory at this address. */
  ghost predicate Lies(mem: Memory, at: int, x: Element) {
    |x| == 4 && forall k :: 0 <= k < |x| ==> Addr(at, k) in mem && mem[Addr(at, k)] == x[k]
  }

  /** The elements xs lie in memory from this address on. */
  ghost predicate Stored(mem: Memory, at: int, xs: seq<Element>) {
    forall i :: 0 <= i < |xs| ==> Lies(mem, at + 4 * i, xs[i])
  }

  /** The bytes at these offsets from the address zero are those of x. */
  ghost predicate Read(mem: Memory, tm: seq<int>, x: Element) {
    |x| == |tm| == 4 && forall k :: 0 <= k < 4 ==> Addr(0, tm[k]) in mem && mem[Addr(0, tm[k])] == x[k]
  }

  /** And so for a list of elements. */
  ghost predicate Reads(mem: Memory, tm: seq<int>, xs: seq<Element>) {
    |tm| == 4 * |xs| && forall i :: 0 <= i < |xs| ==> Read(mem, tm[4 * i..4 * i + 4], xs[i])
  }

  lemma ReadsConcat(mem: Memory, a: seq<int>, xs: seq<Element>, b: seq<int>, ys: seq<Element>)
    requires Reads(mem, a, xs) && Reads(mem, b, ys)
    ensures Reads(mem, a + b, xs + ys)
  {
    hide Read;
    var tm, zs := a + b, xs + ys;
    forall i | 0 <= i < |zs| ensures Read(mem, tm[4 * i..4 * i + 4], zs[i]) {
      if i < |xs| {
        assert tm[4 * i..4 * i + 4] == a[4 * i..4 * i + 4];
        assert zs[i] == xs[i];
      } else {
        var j := i - |xs|;
        assert tm[4 * i..4 * i + 4] == b[4 * j..4 * j + 4];
        assert zs[i] == ys[j];
      }
    }
  }

  /** One element of an array. */
  lemma ReadsOne(mem: Memory, at: int, xs: seq<Element>, i: int)
    requires Stored(mem, at, xs) && 0 <= i < |xs|
    ensures Reads(mem, Shift(Shift(Iota(4), 4 * i), at), [xs[i]])
  {
    var tm := Shift(Shift(Iota(4), 4 * i), at);
    assert Lies(mem, at + 4 * i, xs[i]);
    forall k | 0 <= k < 4 ensures Addr(0, tm[k]) in mem && mem[Addr(0, tm[k])] == xs[i][k] {
      assert Addr(0, tm[k]) == Addr(at + 4 * i, k);
    }
    assert tm[4 * 0..4 * 0 + 4] == tm;
  }

  /** The elements with these indices. */
  lemma {:induction false} ReadsElements(mem: Memory, at: int, xs: seq<Element>, idx: seq<int>)
    requires Stored(mem, at, xs) && InBounds(idx, |xs|)
    ensures Reads(mem, Shift(ElementBytes(4, idx), at), Gather(xs, idx))
  {
    hide Stored, Reads;
    if idx == [] {
      NothingRead(mem, at);
      assert Gather(xs, idx) == [];
    } else {
      ReadsOne(mem, at, xs, idx[0]);
      ReadsElements(mem, at, xs, idx[1..]);
      var first := Shift(Iota(4), 4 * idx[0]);
      ShiftConcat(first, ElementBytes(4, idx[1..]), at);
      ReadsConcat(mem, Shift(first, at), [xs[idx[0]]], Shift(ElementBytes(4, idx[1..]), at), Gather(xs, idx[1..]));
      assert Gather(xs, idx) == [xs[idx[0]]] + Gather(xs, idx[1..]);
    }
  }

  lemma NothingRead(mem: Memory, at: int)
    ensures Shift(ElementBytes(4, []), at) == [] && Reads(mem, [], [])
  {}

  /** The loops' buffer: every array's segment holds its exchanged elements. */
  ghost predicate Filled(p: WrfExchange.Params, arrays: seq<seq<Element>>, buffer: seq<Element>)
    requires |arrays| == p.Total()
  {
    && |buffer| == WrfExchange.Offset(p, p.Total())
    && forall m :: 0 <= m < p.Total() ==> WrfExchange.Holds(p, m, buffer, arrays[m])
  }

  /** The bytes the loops visit from array m on are those of the buffer from its segment on. */
  lemma {:induction false} LoopReads(p: WrfExchange.Params, mem: Memory, addresses: seq<int>,
                                     arrays: seq<seq<Element>>, buffer: seq<Element>, m: nat)
    requires |arrays| == |addresses| == p.Total() && m <= p.Total() && Filled(p, arrays, buffer)
    requires forall i :: 0 <= i < p.Total() ==> Stored(mem, addresses[i], arrays[i])
    ensures WrfExchange.Offset(p, m) <= |buffer|
    ensures Reads(mem, WrfExchange.LoopBytes(p, addresses, m), buffer[WrfExchange.Offset(p, m)..])
    decreases p.Total() - m
  {
    hide Stored, Reads, WrfExchange.Indices, ElementBytes, Shift;
    WrfExchange.OffsetGrows(p, m, p.Total());
    if m == p.Total() {
      NothingRead(mem, 0);
      assert buffer[WrfExchange.Offset(p, m)..] == [];
    } else {
      LoopReads(p, mem, addresses, arrays, buffer, m + 1);
      assert WrfExchange.Holds(p, m, buffer, arrays[m]);
      var idx := WrfExchange.Indices(p, m);
      ReadsElements(mem, addresses[m], arrays[m], idx);
      var from, to := WrfExchange.Offset(p, m), WrfExchange.Offset(p, m + 1);
      assert buffer[from..] == buffer[from..to] + buffer[to..];
      ReadsConcat(mem, Shift(ElementBytes(4, idx), addresses[m]), Gather(arrays[m], idx),
                  WrfExchange.LoopBytes(p, addresses, m + 1), buffer[to..]);
    }
  }

  /** Gathering such bytes stores the elements. */
  lemma GatheredIsStored(tm: seq<int>, mem: Memory, mem': Memory, outbuf: int, xs: seq<Element>)
    requires Gathered(tm, mem, mem', 0, outbuf) && Reads(mem, tm, xs)
    ensures Stored(mem', outbuf, xs)
  {
    hide Gathered, Lies;
    forall i | 0 <= i < |xs| ensures Lies(mem', outbuf + 4 * i, xs[i]) {
      GatheredElement(tm, mem, mem', outbuf, i, xs[i]);
    }
  }

  lemma GatheredElement(tm: seq<int>, mem: Memory, mem': Memory, outbuf: int, i: nat, x: Element)
    requires Gathered(tm, mem, mem', 0, outbuf) && 4 * i + 4 <= |tm| && Read(mem, tm[4 * i..4 * i + 4], x)
    ensures Lies(mem', outbuf + 4 * i, x)
  {
    var at := outbuf + 4 * i;
    forall k | 0 <= k < |x| ensures Addr(at, k) in mem' && mem'[Addr(at, k)] == x[k] {
      var q := 4 * i + k;
      assert Addr(at, k) == Addr(outbuf, q) && tm[4 * i..4 * i + 4][k] == tm[q];
      assert mem'[Addr(outbuf, q)] == mem[Addr(0, tm[q])];
    }
  }

  // ----- the struct's fields -----

  /** Something is exchanged of every array, and the sizes of each array's type fit the program's `int`s. */
  predicate Exchanged(p: WrfExchange.Params) {
    && WrfExchange.Legal(p) && p.Sub1() >= 1 && p.Sub2() >= 1 && p.Sub3() >= 1
    && forall m :: 0 <= m < p.Total() ==>
         Skipped(p, m) || Fits(WrfExchange.TypeOf(p, m))
  }

  /** A four-dimensional array without exchanged scalars. */
  predicate Skipped(p: WrfExchange.Params, m: nat)
    requires m < p.Total()
  {
    m >= p.n2 + p.n3 && p.Scalars(m - p.n2 - p.n3) == 0
  }

  lemma StridedIsGood(t: Datatype)
    requires (t.Vector? || t.HVector?) && t.count >= 1 && t.blocklen >= 1 && t.stride >= 1
    requires Positive(t.base) && Sized(t.base) && forall pack :: Good(t.base, pack)
    ensures Positive(t) && Sized(t) && forall pack :: Good(t, pack)
  {}

  lemma BoxIsGood(p: WrfExchange.Params)
    requires Exchanged(p)
    ensures var t := WrfExchange.BoxType(p); Positive(t) && Sized(t) && forall pack :: Good(t, pack)
    ensures p.d.dim1 * p.d.dim2 * 4 >= 1 && p.d.dim1 * p.d.dim2 * 4 * p.d.dim3 >= 1
  {
    hide Fits, Positive, Good, Sized;
    MulPositive(p.d.dim1, p.d.dim2);
    MulPositive(p.d.dim1 * p.d.dim2 * 4, p.d.dim3);
    FloatIsGood();
    StridedIsGood(Vector(p.Sub2(), p.Sub1(), p.d.dim1, Primitive(FLOAT)));
    StridedIsGood(WrfExchange.BoxType(p));
  }

  lemma FloatIsGood()
    ensures var t := Primitive(FLOAT); Positive(t) && Sized(t) && forall pack :: Good(t, pack)
  {}

  lemma TypeIsGood(p: WrfExchange.Params, m: nat)
    requires Exchanged(p) && m < p.Total() && !Skipped(p, m)
    ensures var t := WrfExchange.TypeOf(p, m); Positive(t) && Fits(t) && Sized(t) && forall pack :: Good(t, pack)
  {
    hide Fits, Positive, Good, Sized, WrfExchange.BoxType;
    BoxIsGood(p);
    FloatIsGood();
    var t := WrfExchange.TypeOf(p, m);
    if !(p.n2 <= m < p.n2 + p.n3) { StridedIsGood(t); }
  }

  lemma {:induction false} FieldsAreGood(p: WrfExchange.Params, addresses: seq<int>, m: nat, pack: bool)
    requires Exchanged(p) && |addresses| == p.Total() && m <= p.Total()
    ensures var fields := WrfExchange.StructFields(p, addresses, m);
      PositiveFields(fields) && FieldsFit(fields) && GoodFields(fields, pack)
    decreases p.Total() - m
  {
    hide Fits, Positive, Good, Sized, WrfExchange.TypeOf, WrfExchange.First, Exchanged;
    if m < p.Total() {
      FieldsAreGood(p, addresses, m + 1, pack);
      if !Skipped(p, m) {
        TypeIsGood(p, m);
        var rest := WrfExchange.StructFields(p, addresses, m + 1);
        var f := Field(addresses[m] + 4 * WrfExchange.First(p, m), 1, WrfExchange.TypeOf(p, m));
        assert ([f] + rest)[1..] == rest;
      }
    }
  }

  // ----- packing -----

  /** THE COMPILED STRUCT PACKS AS THE LOOPS DO.  The arrays lie in memory at their addresses; the compiled pack
      function, called once at MPI_BOTTOM, leaves in the packed buffer exactly the elements that the hand-written
      loops leave in theirs, wherever the arrays are and whatever extent the struct stores. */
  lemma CompiledPacksLikeLoops(p: WrfExchange.Params, addresses: seq<int>, arrays: seq<seq<Element>>,
                               buffer: seq<Element>, extent: int, mem: Memory, outbuf: int)
    returns (mem': Memory)
    requires Exchanged(p) && |arrays| == |addresses| == p.Total() && Filled(p, arrays, buffer)
    requires forall i :: 0 <= i < p.Total() ==> Stored(mem, addresses[i], arrays[i])
    requires 0 <= outbuf < W && 4 * |buffer| <= W
    requires Ready(mem, Moves(true, WrfExchange.LoopBytes(p, addresses, 0), 0, outbuf))
    ensures Reaches(BlocksFunction(WrfExchange.StructFields(p, addresses, 0), true, extent), Call(mem, 0, 1, outbuf),
                    Returned(mem'))
    ensures Stored(mem', outbuf, buffer)
  {
    hide Stored, Reads, Filled, Exchanged, Ready, Moves, Copy, Gathered, BlocksFunction, Reaches, FieldsMap,
         WrfExchange.LoopBytes, WrfExchange.StructFields, PositiveFields, FieldsFit, GoodFields;
    var fields, tm := WrfExchange.StructFields(p, addresses, 0), WrfExchange.LoopBytes(p, addresses, 0);
    WrfExchange.LoopsAreTypemap(p, addresses, 0);
    FieldsAreGood(p, addresses, 0, true);
    OneItemCompiled(fields, true, extent, mem, 0, outbuf);
    mem' := Copy(mem, Moves(true, tm, 0, outbuf));
    LoopReads(p, mem, addresses, arrays, buffer, 0);
    assert buffer[WrfExchange.Offset(p, 0)..] == buffer;
    ReadLength(mem, tm, buffer);
    PackGathers(tm, mem, 0, outbuf);
    GatheredIsStored(tm, mem, mem', outbuf, buffer);
  }

  lemma ReadLength(mem: Memory, tm: seq<int>, xs: seq<Element>)
    requires Reads(mem, tm, xs)
    ensures |tm| == 4 * |xs|
  {}

  // ----- unpacking -----

  lemma {:induction false} ElementByte(idx: seq<int>, e: int, k: int)
    requires 0 <= e < |idx| && 0 <= k < 4
    ensures |ElementBytes(4, idx)| == 4 * |idx| && ElementBytes(4, idx)[4 * e + k] == 4 * idx[e] + k
  {
    ElementCount(idx);
    ElementCount(idx[1..]);
    var first := Shift(Iota(4), 4 * idx[0]);
    assert ElementBytes(4, idx) == first + ElementBytes(4, idx[1..]);
    if e > 0 { ElementByte(idx[1..], e - 1, k); }
  }

  lemma {:induction false} ElementCount(idx: seq<int>)
    ensures |ElementBytes(4, idx)| == 4 * |idx|
  {
    if idx != [] { ElementCount(idx[1..]); }
  }

  /** Byte k of exchanged element e of array j, in the loops' order from array m on. */
  lemma {:induction false} LoopByte(p: WrfExchange.Params, addresses: seq<int>, m: nat, j: nat, e: int, k: int)
    requires |addresses| == p.Total() && m <= j < p.Total() && 0 <= e < |WrfExchange.Indices(p, j)| && 0 <= k < 4
    ensures var q := 4 * (WrfExchange.Offset(p, j) - WrfExchange.Offset(p, m) + e) + k;
      && 0 <= q < |WrfExchange.LoopBytes(p, addresses, m)|
      && WrfExchange.LoopBytes(p, addresses, m)[q] == addresses[j] + 4 * WrfExchange.Indices(p, j)[e] + k
    decreases p.Total() - m
  {
    hide WrfExchange.Indices, ElementBytes;
    var idx, rest := WrfExchange.Indices(p, m), WrfExchange.LoopBytes(p, addresses, m + 1);
    var block := Shift(ElementBytes(4, idx), addresses[m]);
    ElementCount(idx);
    assert WrfExchange.LoopBytes(p, addresses, m) == block + rest;
    if j == m {
      ElementByte(idx, e, k);
    } else {
      WrfExchange.OffsetGrows(p, m + 1, j);
      LoopByte(p, addresses, m + 1, j, e, k);
    }
  }

  /** Every position of the loops is one of these. */
  lemma {:induction false} Locate(p: WrfExchange.Params, addresses: seq<int>, m: nat, q: int)
    returns (j: nat, e: int, k: int)
    requires |addresses| == p.Total() && m <= p.Total() && 0 <= q < |WrfExchange.LoopBytes(p, addresses, m)|
    ensures m <= j < p.Total() && 0 <= e < |WrfExchange.Indices(p, j)| && 0 <= k < 4
    ensures q == 4 * (WrfExchange.Offset(p, j) - WrfExchange.Offset(p, m) + e) + k
    decreases p.Total() - m
  {
    hide WrfExchange.Indices, ElementBytes;
    var idx, rest := WrfExchange.Indices(p, m), WrfExchange.LoopBytes(p, addresses, m + 1);
    ElementCount(idx);
    assert WrfExchange.LoopBytes(p, addresses, m) == Shift(ElementBytes(4, idx), addresses[m]) + rest;
    if q < 4 * |idx| {
      j, e, k := m, q / 4, q % 4;
    } else {
      j, e, k := Locate(p, addresses, m + 1, q - 4 * |idx|);
    }
  }

  /** No two bytes of the arrays share an address. */
  ghost predicate ArraysApart(p: WrfExchange.Params, addresses: seq<int>)
    requires |addresses| == p.Total()
  {
    forall i, j, x, y | 0 <= i < p.Total() && 0 <= j < p.Total() ::
      (0 <= x < 4 * WrfExchange.Length(p, i) && 0 <= y < 4 * WrfExchange.Length(p, j)
       && Addr(addresses[i], x) == Addr(addresses[j], y)) ==> i == j && x == y
  }

  lemma ApartBytes(p: WrfExchange.Params, addresses: seq<int>, i: nat, x: int, j: nat, y: int)
    requires |addresses| == p.Total() && ArraysApart(p, addresses) && i < p.Total() && j < p.Total()
    requires 0 <= x < 4 * WrfExchange.Length(p, i) && 0 <= y < 4 * WrfExchange.Length(p, j)
    requires Addr(0, addresses[i] + x) == Addr(0, addresses[j] + y)
    ensures i == j && x == y
  {
    hide WrfExchange.Length;
    assert Addr(addresses[i], x) == Addr(0, addresses[i] + x) && Addr(addresses[j], y) == Addr(0, addresses[j] + y);
  }

  lemma InBoundsAt(idx: seq<int>, n: int, e: int)
    requires InBounds(idx, n) && 0 <= e < |idx|
    ensures 0 <= idx[e] < n
  {}

  /** A position that hits byte k of element i of array m is that of an exchanged element. */
  lemma HitBy(p: WrfExchange.Params, addresses: seq<int>, m: nat, i: int, k: int, q: int) returns (e: int)
    requires WrfExchange.Legal(p) && |addresses| == p.Total() && ArraysApart(p, addresses) && m < p.Total()
    requires 0 <= i < WrfExchange.Length(p, m) && 0 <= k < 4 && 0 <= q < |WrfExchange.LoopBytes(p, addresses, 0)|
    requires Addr(0, WrfExchange.LoopBytes(p, addresses, 0)[q]) == Addr(0, addresses[m] + (4 * i + k))
    ensures 0 <= e < |WrfExchange.Indices(p, m)| && WrfExchange.Indices(p, m)[e] == i
    ensures q == 4 * (WrfExchange.Offset(p, m) + e) + k
  {
    hide WrfExchange.Legal, WrfExchange.Length, WrfExchange.Indices, WrfExchange.LoopBytes, ArraysApart, InBounds,
         Distinct;
    var j, f, l := Locate(p, addresses, 0, q);
    LoopByte(p, addresses, 0, j, f, l);
    WrfExchange.IndicesFit(p, j);
    InBoundsAt(WrfExchange.Indices(p, j), WrfExchange.Length(p, j), f);
    ApartBytes(p, addresses, m, 4 * i + k, j, 4 * WrfExchange.Indices(p, j)[f] + l);
    e := f;
  }

  /** Byte k of element i of xs lies in memory at its place. */
  ghost predicate HasByte(mem: Memory, at: int, xs: seq<Element>, i: int, k: int)
    requires 0 <= i < |xs| && 0 <= k < 4
  {
    |xs[i]| == 4 && Addr(at, 4 * i + k) in mem && mem[Addr(at, 4 * i + k)] == xs[i][k]
  }

  /** The loops visit each exchanged byte once. */
  lemma OnlyPosition(p: WrfExchange.Params, addresses: seq<int>, m: nat, e: int, k: int)
    requires WrfExchange.Legal(p) && |addresses| == p.Total() && ArraysApart(p, addresses) && m < p.Total()
    requires 0 <= e < |WrfExchange.Indices(p, m)| && 0 <= k < 4
    ensures var tm, q := WrfExchange.LoopBytes(p, addresses, 0), 4 * (WrfExchange.Offset(p, m) + e) + k;
      Last(tm, 0, q) && Addr(0, tm[q]) == Addr(addresses[m], 4 * WrfExchange.Indices(p, m)[e] + k)
  {
    hide WrfExchange.Legal, WrfExchange.Length, WrfExchange.Indices, WrfExchange.LoopBytes, ArraysApart, InBounds,
         Distinct;
    var tm, idx := WrfExchange.LoopBytes(p, addresses, 0), WrfExchange.Indices(p, m);
    WrfExchange.IndicesFit(p, m);
    InBoundsAt(idx, WrfExchange.Length(p, m), e);
    LoopByte(p, addresses, 0, m, e, k);
    var q := 4 * (WrfExchange.Offset(p, m) + e) + k;
    SameAddressFromZero(addresses[m], 4 * idx[e] + k);
    forall r | q < r < |tm| ensures Addr(0, tm[r]) != Addr(0, tm[q]) {
      if Addr(0, tm[r]) == Addr(0, tm[q]) {
        var f := HitBy(p, addresses, m, idx[e], k, r);
        OnlyOne(idx, e, f);
      }
    }
  }

  lemma SameAddressFromZero(at: int, x: int)
    ensures Addr(0, at + x) == Addr(at, x)
  {}

  lemma ScatteredAt(tm: seq<int>, mem: Memory, mem': Memory, inbuf: int, q: int)
    requires Scattered(tm, mem, mem', inbuf, 0) && Last(tm, 0, q)
    ensures Addr(0, tm[q]) in mem' && Addr(inbuf, q) in mem && mem'[Addr(0, tm[q])] == mem[Addr(inbuf, q)]
  {}

  /** An exchanged element is that of the buffer. */
  lemma ExchangedByte(p: WrfExchange.Params, addresses: seq<int>, buffer: seq<Element>, mem: Memory, mem': Memory,
                      inbuf: int, m: nat, e: int, k: int, i: int)
    requires WrfExchange.Legal(p) && |addresses| == p.Total() && ArraysApart(p, addresses) && m < p.Total()
    requires 0 <= e < |WrfExchange.Indices(p, m)| && 0 <= k < 4 && WrfExchange.Indices(p, m)[e] == i
    requires |buffer| == WrfExchange.Offset(p, p.Total()) && Stored(mem, inbuf, buffer)
    requires Scattered(WrfExchange.LoopBytes(p, addresses, 0), mem, mem', inbuf, 0)
    ensures WrfExchange.Offset(p, m) + e < |buffer| && |buffer[WrfExchange.Offset(p, m) + e]| == 4
    ensures Addr(addresses[m], 4 * i + k) in mem'
      && mem'[Addr(addresses[m], 4 * i + k)] == buffer[WrfExchange.Offset(p, m) + e][k]
  {
    hide WrfExchange.Legal, WrfExchange.Indices, WrfExchange.LoopBytes, ArraysApart, Stored, Scattered, Last;
    var from := WrfExchange.Offset(p, m);
    WrfExchange.OffsetGrows(p, m + 1, p.Total());
    OnlyPosition(p, addresses, m, e, k);
    ScatteredAt(WrfExchange.LoopBytes(p, addresses, 0), mem, mem', inbuf, 4 * (from + e) + k);
    StoredByte(mem, inbuf, buffer, from + e, k);
  }

  /** An element that is not exchanged stays. */
  lemma KeptByte(p: WrfExchange.Params, addresses: seq<int>, a: seq<Element>, mem: Memory, mem': Memory, inbuf: int,
                 m: nat, k: int, i: int)
    requires WrfExchange.Legal(p) && |addresses| == p.Total() && ArraysApart(p, addresses) && m < p.Total()
    requires |a| == WrfExchange.Length(p, m) && Stored(mem, addresses[m], a)
    requires 0 <= i < |a| && 0 <= k < 4 && i !in WrfExchange.Indices(p, m)
    requires Scattered(WrfExchange.LoopBytes(p, addresses, 0), mem, mem', inbuf, 0)
    ensures HasByte(mem', addresses[m], a, i, k)
  {
    hide WrfExchange.Legal, WrfExchange.Length, WrfExchange.Indices, WrfExchange.LoopBytes, ArraysApart, Stored;
    var tm, at := WrfExchange.LoopBytes(p, addresses, 0), Addr(addresses[m], 4 * i + k);
    assert at == Addr(0, addresses[m] + (4 * i + k));
    StoredByte(mem, addresses[m], a, i, k);
    forall q | 0 <= q < |tm| ensures at != Addr(0, tm[q]) {
      if at == Addr(0, tm[q]) { var e := HitBy(p, addresses, m, i, k, q); }
    }
  }

  /** What unpacking leaves at byte k of element i of array m. */
  lemma UnpackedByte(p: WrfExchange.Params, addresses: seq<int>, a: seq<Element>, buffer: seq<Element>, mem: Memory,
                     mem': Memory, inbuf: int, m: nat, i: int, k: int)
    requires WrfExchange.Legal(p) && |addresses| == p.Total() && ArraysApart(p, addresses) && m < p.Total()
    requires |a| == WrfExchange.Length(p, m) && Stored(mem, addresses[m], a)
    requires |buffer| == WrfExchange.Offset(p, p.Total()) && Stored(mem, inbuf, buffer)
    requires Scattered(WrfExchange.LoopBytes(p, addresses, 0), mem, mem', inbuf, 0)
    requires 0 <= i < |a| && 0 <= k < 4
    ensures |WrfExchange.WholeUnpacked(p, m, a, buffer)| == |a|
      && HasByte(mem', addresses[m], WrfExchange.WholeUnpacked(p, m, a, buffer), i, k)
  {
    hide WrfExchange.Legal, WrfExchange.Length, WrfExchange.Indices, WrfExchange.LoopBytes, ArraysApart, Scatter,
         InBounds, Distinct, Stored, Scattered;
    var idx := WrfExchange.Indices(p, m);
    WrfExchange.IndicesFit(p, m);
    WrfExchange.OffsetGrows(p, m + 1, p.Total());
    var from := WrfExchange.Offset(p, m);
    ScatterEffect(a, idx, buffer[from..WrfExchange.Offset(p, m + 1)], i);
    if i in idx {
      var e :| 0 <= e < |idx| && idx[e] == i;
      NoneAfter(idx, e);
      ExchangedByte(p, addresses, buffer, mem, mem', inbuf, m, e, k, i);
    } else {
      KeptByte(p, addresses, a, mem, mem', inbuf, m, k, i);
    }
  }

  lemma OnlyOne(idx: seq<int>, e: int, f: int)
    requires Distinct(idx) && 0 <= e < |idx| && 0 <= f < |idx| && idx[e] == idx[f]
    ensures e == f
  {}

  lemma NoneAfter(idx: seq<int>, e: int)
    requires Distinct(idx) && 0 <= e < |idx|
    ensures idx[e] !in idx[e + 1..]
  {}

  lemma StoredByte(mem: Memory, at: int, xs: seq<Element>, i: int, k: int)
    requires Stored(mem, at, xs) && 0 <= i < |xs| && 0 <= k < 4
    ensures HasByte(mem, at, xs, i, k)
  {
    assert Lies(mem, at + 4 * i, xs[i]);
    assert Addr(at + 4 * i, k) == Addr(at, 4 * i + k);
  }

  lemma StoredFromBytes(mem: Memory, at: int, xs: seq<Element>)
    requires forall i, k :: 0 <= i < |xs| && 0 <= k < 4 ==> HasByte(mem, at, xs, i, k)
    ensures Stored(mem, at, xs)
  {
    forall i | 0 <= i < |xs| ensures Lies(mem, at + 4 * i, xs[i]) {
      var x, from := xs[i], at + 4 * i;
      assert HasByte(mem, at, xs, i, 0);
      forall k | 0 <= k < |x| ensures Addr(from, k) in mem && mem[Addr(from, k)] == x[k] {
        assert HasByte(mem, at, xs, i, k) && Addr(from, k) == Addr(at, 4 * i + k);
      }
    }
  }

  /** THE COMPILED STRUCT UNPACKS AS THE LOOPS DO.  If no two bytes of the arrays share an address, the compiled unpack
      function, called once at MPI_BOTTOM, leaves every array as the hand-written loops leave it. */
  lemma CompiledUnpacksLikeLoops(p: WrfExchange.Params, addresses: seq<int>, arrays: seq<seq<Element>>,
                                 buffer: seq<Element>, extent: int, mem: Memory, inbuf: int)
    returns (mem': Memory)
    requires Exchanged(p) && |arrays| == |addresses| == p.Total() && ArraysApart(p, addresses)
    requires forall m :: 0 <= m < p.Total() ==>
      |arrays[m]| == WrfExchange.Length(p, m) && Stored(mem, addresses[m], arrays[m])
    requires 0 <= inbuf < W && |buffer| == WrfExchange.Offset(p, p.Total()) && Stored(mem, inbuf, buffer)
    requires Ready(mem, Moves(false, WrfExchange.LoopBytes(p, addresses, 0), inbuf, 0))
    ensures Reaches(BlocksFunction(WrfExchange.StructFields(p, addresses, 0), false, extent), Call(mem, inbuf, 1, 0),
                    Returned(mem'))
    ensures forall m :: 0 <= m < p.Total() ==>
      Stored(mem', addresses[m], WrfExchange.WholeUnpacked(p, m, arrays[m], buffer))
  {
    hide Stored, ArraysApart, Ready, Moves, Copy, Scattered, BlocksFunction, Reaches, FieldsMap, WrfExchange.Length,
         WrfExchange.LoopBytes, WrfExchange.StructFields, PositiveFields, FieldsFit, GoodFields, WrfExchange.Unpacked;
    var fields, tm := WrfExchange.StructFields(p, addresses, 0), WrfExchange.LoopBytes(p, addresses, 0);
    WrfExchange.LoopsAreTypemap(p, addresses, 0);
    FieldsAreGood(p, addresses, 0, false);
    OneItemCompiled(fields, false, extent, mem, inbuf, 0);
    mem' := Copy(mem, Moves(false, tm, inbuf, 0));
    UnpackScatters(tm, mem, inbuf, 0);
    forall m | 0 <= m < p.Total()
      ensures Stored(mem', addresses[m], WrfExchange.WholeUnpacked(p, m, arrays[m], buffer))
    {
      ArrayUnpacked(p, addresses, arrays[m], buffer, mem, mem', inbuf, m);
    }
  }

  lemma ArrayUnpacked(p: WrfExchange.Params, addresses: seq<int>, a: seq<Element>, buffer: seq<Element>, mem: Memory,
                      mem': Memory, inbuf: int, m: nat)
    requires WrfExchange.Legal(p) && |addresses| == p.Total() && ArraysApart(p, addresses) && m < p.Total()
    requires |a| == WrfExchange.Length(p, m) && Stored(mem, addresses[m], a)
    requires |buffer| == WrfExchange.Offset(p, p.Total()) && Stored(mem, inbuf, buffer)
    requires Scattered(WrfExchange.LoopBytes(p, addresses, 0), mem, mem', inbuf, 0)
    ensures Stored(mem', addresses[m], WrfExchange.WholeUnpacked(p, m, a, buffer))
  {
    hide WrfExchange.Legal, WrfExchange.Length, WrfExchange.LoopBytes, ArraysApart, Stored, Scattered,
         WrfExchange.Indices, WrfExchange.WholeUnpacked, HasByte;
    var xs := WrfExchange.WholeUnpacked(p, m, a, buffer);
    SameSize(p, m, a, buffer);
    forall i, k | 0 <= i < |xs| && 0 <= k < 4 ensures HasByte(mem', addresses[m], xs, i, k) {
      UnpackedByte(p, addresses, a, buffer, mem, mem', inbuf, m, i, k);
    }
    StoredFromBytes(mem', addresses[m], xs);
  }

  lemma SameSize(p: WrfExchange.Params, m: nat, a: seq<Element>, buffer: seq<Element>)
    requires WrfExchange.Legal(p) && m < p.Total() && |a| == WrfExchange.Length(p, m)
    requires |buffer| == WrfExchange.Offset(p, p.Total())
    ensures |WrfExchange.WholeUnpacked(p, m, a, buffer)| == |a|
  {
    hide WrfExchange.Legal, WrfExchange.Length, WrfExchange.Indices;
  }
}
