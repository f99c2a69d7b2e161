/** The whole WRF exchange: all arrays in one buffer, one struct type for the same bytes. */
module WrfExchange {
  import opened Arithmetic
  import opened Datatypes
  import opened Typemap
  import opened Wellformed
  import opened Bounds
  import opened Mpi
  import opened MpiTrees
  import opened Transfers
  import opened Elements
  import opened Nas
  import W = Wrf

  /** The arguments after the conversion from Fortran: numbers of arrays, bounds of the sub-boxes
      (inclusive), the first scalar of the four-dimensional arrays and their last dimensions. */
  datatype Params = Params(n2: nat, n3: nat, limits: seq<int>, first4: int,
                           ilo: int, ihi: int, jlo: int, jhi: int, klo: int, khi: int, d: W.Dims)
  {
    function Sub1(): int { ihi - ilo + 1 }
    function Sub2(): int { khi - klo + 1 }
    function Sub3(): int { jhi - jlo + 1 }
    function Total(): nat { n2 + n3 + |limits| }
    /** Scalars of four-dimensional array q that are exchanged. */
    function Scalars(q: int): int
      requires 0 <= q < |limits|
    {
      if limits[q] > first4 then limits[q] - first4 else 0
    }
  }

  predicate Legal(p: Params) {
    && 0 <= p.ilo <= p.ihi + 1 <= p.d.dim1 && 0 <= p.klo <= p.khi + 1 <= p.d.dim2 && 0 <= p.jlo <= p.jhi + 1 <= p.d.dim3
    && p.d.dim1 >= 1 && p.d.dim2 >= 1 && p.d.dim3 >= 1 && p.first4 >= 0
  }

  /** The elements of array m that are exchanged, relative to the first of them, and the first. */
  function Shape(p: Params, m: nat): seq<int>
    requires m < p.Total()
  {
    if m < p.n2 then W.Area(p.Sub1(), p.Sub3(), p.d)
    else if m < p.n2 + p.n3 then W.Box(p.Sub1(), p.Sub2(), p.Sub3(), p.d)
    else W.Hyper(p.Sub1(), p.Sub2(), p.Sub3(), p.Scalars(m - p.n2 - p.n3), p.d)
  }

  function First(p: Params, m: nat): int {
    if m < p.n2 then W.idx4D(p.ilo, p.jlo, 0, 0, p.d)
    else if m < p.n2 + p.n3 then W.idx4D(p.ilo, p.klo, p.jlo, 0, p.d)
    else W.idx4D(p.ilo, p.klo, p.jlo, p.first4, p.d)
  }

  function Indices(p: Params, m: nat): seq<int>
    requires m < p.Total()
  {
    Shift(Shape(p, m), First(p, m))
  }

  function Length(p: Params, m: nat): int
    requires m < p.Total()
  {
    if m < p.n2 then p.d.dim1 * p.d.dim3
    else if m < p.n2 + p.n3 then p.d.dim1 * p.d.dim2 * p.d.dim3
    else p.d.dim1 * p.d.dim2 * p.d.dim3 * p.limits[m - p.n2 - p.n3]
  }

  // ----- distinct and in bounds -----

  lemma {:induction false} RepShift(tm: seq<int>, step: int, n: int, d: int)
    ensures Shift(Rep(tm, step, n), d) == Rep(Shift(tm, d), step, n)
    decreases n
  {
    if n > 0 {
      RepShift(tm, step, n - 1, d);
      ShiftConcat(tm, Shift(Rep(tm, step, n - 1), step), d);
      ShiftShift(Rep(tm, step, n - 1), step, d);
      ShiftShift(Rep(tm, step, n - 1), d, step);
    }
  }

  /** n blocks of width `width`, from block lo on, among `count` of them. */
  lemma Level(tm: seq<int>, width: int, lo: int, n: int, count: int)
    requires Distinct(tm) && Within(tm, 0, width) && width >= 0 && 0 <= lo && 0 <= n && lo + n <= count
    ensures var r := Shift(Rep(tm, width, n), lo * width); Distinct(r) && Within(r, 0, count * width)
    ensures |Rep(tm, width, n)| == n * |tm|
  {
    RepLength(tm, width, n);
    RepDistinct(tm, width, n, 0, width);
    DistinctShift(Rep(tm, width, n), lo * width);
    if n >= 1 {
      RepWithin(tm, width, n, 0, width);
      MulDistributes(n, 1, width);
      MulNonNegative(lo, width);
      MulDistributes(count, lo + n, width);
      MulDistributes(lo, n, width);
      MulNonNegative(count - lo - n, width);
      assert width * (n - 1) == (n - 1) * width;
      ShiftWithin(Rep(tm, width, n), 0, width + width * (n - 1), lo * width);
    }
  }

  lemma WithinIsInBounds(tm: seq<int>, n: int)
    ensures Within(tm, 0, n) <==> InBounds(tm, n)
  {}

  lemma AreaFits(x: int, n1: int, y: int, n2: int, count: int, d: W.Dims)
    requires 0 <= x && 0 <= n1 && x + n1 <= d.dim1 && 0 <= y && 0 <= n2 && y + n2 <= count && d.dim1 >= 1
    ensures var r := Shift(W.Area(n1, n2, d), x + y * d.dim1); Distinct(r) && Within(r, 0, count * d.dim1)
    ensures |W.Area(n1, n2, d)| == n2 * n1
  {
    Level([0], 1, x, n1, d.dim1);
    var row := Shift(Row(1, n1), x);
    Level(row, d.dim1, y, n2, count);
    RepShift(Row(1, n1), d.dim1, n2, x);
    ShiftShift(Rep(Row(1, n1), d.dim1, n2), x, y * d.dim1);
    assert |row| == n1;
  }

  lemma BoxFits(x: int, n1: int, y: int, n2: int, z: int, n3: int, d: W.Dims)
    requires 0 <= x && 0 <= n1 && x + n1 <= d.dim1 && 0 <= y && 0 <= n2 && y + n2 <= d.dim2 && d.dim1 >= 1
      && d.dim2 >= 1
    requires 0 <= z && 0 <= n3 && z + n3 <= d.dim3
    ensures var r := Shift(W.Box(n1, n2, n3, d), x + y * d.dim1 + z * (d.dim1 * d.dim2));
      Distinct(r) && Within(r, 0, d.dim3 * (d.dim1 * d.dim2))
    ensures |W.Box(n1, n2, n3, d)| == n3 * (n2 * n1)
  {
    AreaFits(x, n1, y, n2, d.dim2, d);
    var area := Shift(W.Area(n1, n2, d), x + y * d.dim1);
    MulNonNegative(d.dim1, d.dim2);
    assert d.dim2 * d.dim1 == d.dim1 * d.dim2;
    Level(area, d.dim1 * d.dim2, z, n3, d.dim3);
    RepShift(W.Area(n1, n2, d), d.dim1 * d.dim2, n3, x + y * d.dim1);
    ShiftShift(Rep(W.Area(n1, n2, d), d.dim1 * d.dim2, n3), x + y * d.dim1, z * (d.dim1 * d.dim2));
    assert |area| == n2 * n1;
  }

  lemma HyperFits(x: int, n1: int, y: int, n2: int, z: int, n3: int, t: int, n4: int, count: int, d: W.Dims)
    requires 0 <= x && 0 <= n1 && x + n1 <= d.dim1 && 0 <= y && 0 <= n2 && y + n2 <= d.dim2 && d.dim1 >= 1
      && d.dim2 >= 1
    requires 0 <= z && 0 <= n3 && z + n3 <= d.dim3 && 0 <= t && 0 <= n4 && (n4 == 0 || t + n4 <= count)
    ensures var r := Shift(W.Hyper(n1, n2, n3, n4, d),
                           x + y * d.dim1 + z * (d.dim1 * d.dim2) + t * (d.dim1 * d.dim2 * d.dim3));
      Distinct(r) && Within(r, 0, count * (d.dim1 * d.dim2 * d.dim3))
    ensures |W.Hyper(n1, n2, n3, n4, d)| == n4 * (n3 * (n2 * n1))
  {
    var first, step := x + y * d.dim1 + z * (d.dim1 * d.dim2), d.dim1 * d.dim2 * d.dim3;
    BoxFits(x, n1, y, n2, z, n3, d);
    var box := Shift(W.Box(n1, n2, n3, d), first);
    MulNonNegative(d.dim1, d.dim2);
    MulNonNegative(d.dim1 * d.dim2, d.dim3);
    assert d.dim3 * (d.dim1 * d.dim2) == step;
    if n4 > 0 {
      Level(box, step, t, n4, count);
      RepShift(W.Box(n1, n2, n3, d), step, n4, first);
      ShiftShift(Rep(W.Box(n1, n2, n3, d), step, n4), first, t * step);
      assert |box| == n3 * (n2 * n1);
    }
  }

  /** Elements of array m that are exchanged. */
  function Count(p: Params, m: nat): int
    requires m < p.Total()
  {
    if m < p.n2 then p.Sub3() * p.Sub1()
    else if m < p.n2 + p.n3 then p.Sub3() * (p.Sub2() * p.Sub1())
    else p.Scalars(m - p.n2 - p.n3) * (p.Sub3() * (p.Sub2() * p.Sub1()))
  }

  lemma IndicesFit(p: Params, m: nat)
    requires Legal(p) && m < p.Total()
    ensures InBounds(Indices(p, m), Length(p, m)) && Distinct(Indices(p, m))
      && |Indices(p, m)| == |Shape(p, m)| == Count(p, m)
  {
    hide Distinct, Within, InBounds, Rep;
    WithinIsInBounds(Indices(p, m), Length(p, m));
    Expand(p.ilo, p.jlo, 0, 0, p.d);
    Expand(p.ilo, p.klo, p.jlo, 0, p.d);
    Expand(p.ilo, p.klo, p.jlo, p.first4, p.d);
    if m < p.n2 {
      AreaFits(p.ilo, p.Sub1(), p.jlo, p.Sub3(), p.d.dim3, p.d);
      assert p.d.dim3 * p.d.dim1 == p.d.dim1 * p.d.dim3;
    } else if m < p.n2 + p.n3 {
      BoxFits(p.ilo, p.Sub1(), p.klo, p.Sub2(), p.jlo, p.Sub3(), p.d);
      assert p.d.dim3 * (p.d.dim1 * p.d.dim2) == p.d.dim1 * p.d.dim2 * p.d.dim3;
    } else {
      var q := m - p.n2 - p.n3;
      HyperFits(p.ilo, p.Sub1(), p.klo, p.Sub2(), p.jlo, p.Sub3(), p.first4, p.Scalars(q), p.limits[q], p.d);
      assert p.limits[q] * (p.d.dim1 * p.d.dim2 * p.d.dim3) == p.d.dim1 * p.d.dim2 * p.d.dim3 * p.limits[q];
    }
  }

  lemma Expand(x: int, y: int, z: int, t: int, d: W.Dims)
    ensures W.idx4D(x, y, z, t, d) == x + y * d.dim1 + z * (d.dim1 * d.dim2) + t * (d.dim1 * d.dim2 * d.dim3)
    ensures 0 * (d.dim1 * d.dim2) == 0 && 0 * (d.dim1 * d.dim2 * d.dim3) == 0
  {
    W.Along(0, 0, 0, 0, t, d);
    W.Along(0, 0, 0, t, z, d);
    W.Along(0, 0, z, t, y, d);
    W.Along(0, y, z, t, x, d);
    assert W.idx4D(0, 0, 0, 0, d) == 0 by { Zero(d); }
  }

  lemma Zero(d: W.Dims)
    ensures W.idx4D(0, 0, 0, 0, d) == 0
  {
    assert d.dim3 * 0 == 0 && d.dim2 * 0 == 0 && d.dim1 * 0 == 0;
  }

  // ----- where each array lies in the buffer -----

  function Offset(p: Params, m: nat): nat
    requires m <= p.Total()
  {
    if m == 0 then 0 else Offset(p, m - 1) + |Indices(p, m - 1)|
  }

  lemma {:induction false} OffsetGrows(p: Params, i: nat, m: nat)
    requires i <= m <= p.Total()
    ensures Offset(p, i) <= Offset(p, m)
  {
    if i < m { OffsetGrows(p, i, m - 1); }
  }

  /** element_number as the program computes it. */
  method ElementNumber(p: Params) returns (n: int)
    requires Legal(p)
    ensures n == Offset(p, p.Total())
  {
    hide Indices, Count, Shape;
    n := p.n2 * p.Sub1() * p.Sub3() + p.n3 * p.Sub1() * p.Sub2() * p.Sub3();
    OffsetOfFirst(p, p.n2);
    OffsetOfSecond(p, p.n3);
    for m := 0 to |p.limits|
      invariant n == Offset(p, p.n2 + p.n3 + m)
    {
      OneScalarArray(p, m);
      if p.limits[m] > p.first4 {
        n := n + (p.limits[m] - p.first4) * p.Sub1() * p.Sub2() * p.Sub3();
      }
    }
  }

  lemma {:induction false} OffsetOfFirst(p: Params, m: nat)
    requires Legal(p) && m <= p.n2
    ensures Offset(p, m) == m * p.Sub1() * p.Sub3()
    decreases m
  {
    if m > 0 {
      OffsetOfFirst(p, m - 1);
      IndicesFit(p, m - 1);
      MulDistributes(m, 1, p.Sub1());
      MulDistributes(m * p.Sub1(), p.Sub1(), p.Sub3());
    }
  }

  lemma {:induction false} OffsetOfSecond(p: Params, m: nat)
    requires Legal(p) && m <= p.n3
    ensures Offset(p, p.n2 + m) == p.n2 * p.Sub1() * p.Sub3() + m * p.Sub1() * p.Sub2() * p.Sub3()
    decreases m
  {
    if m == 0 {
      OffsetOfFirst(p, p.n2);
      assert 0 * p.Sub1() * p.Sub2() * p.Sub3() == 0;
    } else {
      OffsetOfSecond(p, m - 1);
      IndicesFit(p, p.n2 + m - 1);
      Volume(1, p.Sub1(), p.Sub2(), p.Sub3());
      MulDistributes(m, 1, p.Sub1());
      MulDistributes(m * p.Sub1(), p.Sub1(), p.Sub2());
      MulDistributes(m * p.Sub1() * p.Sub2(), p.Sub1() * p.Sub2(), p.Sub3());
    }
  }

  lemma Volume(n: int, a: int, b: int, c: int)
    ensures n * a * b * c == n * (c * (b * a))
  {
    MulAssoc(n, a, b);
    MulAssoc(n, a * b, c);
    assert (a * b) * c == c * (b * a);
  }

  lemma OneScalarArray(p: Params, q: nat)
    requires Legal(p) && q < |p.limits|
    ensures var m := p.n2 + p.n3 + q;
      Offset(p, m + 1) == Offset(p, m) + p.Scalars(q) * p.Sub1() * p.Sub2() * p.Sub3()
  {
    IndicesFit(p, p.n2 + p.n3 + q);
    Volume(p.Scalars(q), p.Sub1(), p.Sub2(), p.Sub3());
  }

  // ----- packing and unpacking all arrays -----

  ghost predicate Fields<T>(p: Params, arrays: seq<array<T>>, buffer: array<T>) {
    && Legal(p) && |arrays| == p.Total() && buffer.Length == Offset(p, p.Total())
    && (forall m :: 0 <= m < |arrays| ==> arrays[m] != buffer && arrays[m].Length == Length(p, m))
    && (forall i, j :: 0 <= i < j < |arrays| ==> arrays[i] != arrays[j])
  }

  /** Array m occupies its segment of the buffer. */
  ghost predicate Holds<T>(p: Params, m: nat, buffer: seq<T>, a: seq<T>)
    requires m < p.Total()
  {
    && Offset(p, m + 1) <= |buffer| && InBounds(Indices(p, m), |a|)
    && buffer[Offset(p, m)..Offset(p, m + 1)] == Gather(a, Indices(p, m))
  }

  method PackArray<T>(p: Params, m: nat, a: array<T>, buffer: array<T>, counter: nat) returns (counter': nat)
    requires Legal(p) && m < p.Total() && a != buffer && a.Length == Length(p, m)
    requires counter == Offset(p, m) && Offset(p, m + 1) <= buffer.Length
    modifies buffer
    ensures counter' == Offset(p, m + 1) && Holds(p, m, buffer[..], a[..])
    ensures forall i :: 0 <= i < counter ==> buffer[i] == old(buffer[i])
  {
    hide W.Area, W.Box, W.Hyper, W.idx4D, InBounds, Length, Distinct, Count;
    IndicesFit(p, m);
    if m < p.n2 {
      counter' := W.PackArea(a, buffer, counter, p.ilo, p.ihi, p.jlo, p.jhi, 0, 0, p.d);
    } else if m < p.n2 + p.n3 {
      counter' := W.PackBox(a, buffer, counter, p.ilo, p.ihi, p.klo, p.khi, p.jlo, p.jhi, 0, p.d);
    } else {
      var q := m - p.n2 - p.n3;
      counter' := W.PackHyper(a, buffer, counter, p.ilo, p.ihi, p.klo, p.khi, p.jlo, p.jhi,
                              p.first4, p.first4 + p.Scalars(q), p.d);
    }
  }

  /** Packing: every array's elements in the order of its indices, one array after the other, until
      the counter is element_number. */
  method PackAll<T>(p: Params, array2Ds: seq<array<T>>, array3Ds: seq<array<T>>, array4Ds: seq<array<T>>,
                    buffer: array<T>)
    returns (counter: nat)
    requires Fields(p, array2Ds + array3Ds + array4Ds, buffer)
    requires |array2Ds| == p.n2 && |array3Ds| == p.n3
    modifies buffer
    ensures counter == Offset(p, p.Total()) == buffer.Length
    ensures var arrays := array2Ds + array3Ds + array4Ds;
      forall m :: 0 <= m < p.Total() ==> Holds(p, m, buffer[..], arrays[m][..])
  {
    hide Legal, Length, Indices;
    ghost var arrays := array2Ds + array3Ds + array4Ds;
    counter := 0;
    for m := 0 to p.n2
      invariant counter == Offset(p, m) && forall i :: 0 <= i < m ==> Holds(p, i, buffer[..], arrays[i][..])
    {
      counter := PackNext(p, m, array2Ds[m], buffer, counter, arrays);
    }
    for m := 0 to p.n3
      invariant counter == Offset(p, p.n2 + m)
      invariant forall i :: 0 <= i < p.n2 + m ==> Holds(p, i, buffer[..], arrays[i][..])
    {
      counter := PackNext(p, p.n2 + m, array3Ds[m], buffer, counter, arrays);
    }
    for m := 0 to |p.limits|
      invariant counter == Offset(p, p.n2 + p.n3 + m)
      invariant forall i :: 0 <= i < p.n2 + p.n3 + m ==> Holds(p, i, buffer[..], arrays[i][..])
    {
      counter := PackNext(p, p.n2 + p.n3 + m, array4Ds[m], buffer, counter, arrays);
    }
  }

  /** One more array; the segments before it stay. */
  method PackNext<T>(p: Params, m: nat, a: array<T>, buffer: array<T>, counter: nat, ghost arrays: seq<array<T>>)
    returns (counter': nat)
    requires Fields(p, arrays, buffer) && m < p.Total() && a == arrays[m] && counter == Offset(p, m)
    requires forall i :: 0 <= i < m ==> Holds(p, i, buffer[..], arrays[i][..])
    modifies buffer
    ensures counter' == Offset(p, m + 1) && forall i :: 0 <= i < m + 1 ==> Holds(p, i, buffer[..], arrays[i][..])
  {
    hide Legal, Length, Indices;
    OffsetGrows(p, m + 1, p.Total());
    ghost var before := buffer[..];
    counter' := PackArray(p, m, a, buffer, counter);
    forall i | 0 <= i < m ensures Holds(p, i, buffer[..], arrays[i][..]) {
      OffsetGrows(p, i + 1, m);
      assert Holds(p, i, before, arrays[i][..]);
      assert buffer[..][Offset(p, i)..Offset(p, i + 1)] == before[Offset(p, i)..Offset(p, i + 1)];
    }
  }

  /** What unpacking segment m of the buffer makes of an array. */
  ghost function Unpacked<T>(p: Params, m: nat, a: seq<T>, buffer: seq<T>): seq<T>
    requires m < p.Total() && InBounds(Indices(p, m), |a|) && Offset(p, m + 1) <= |buffer|
  {
    Scatter(a, Indices(p, m), buffer[Offset(p, m)..Offset(p, m + 1)])
  }

  method UnpackArray<T>(p: Params, m: nat, a: array<T>, buffer: array<T>, counter: nat) returns (counter': nat)
    requires Legal(p) && m < p.Total() && a != buffer && a.Length == Length(p, m)
    requires counter == Offset(p, m) && Offset(p, m + 1) <= buffer.Length
    modifies a
    ensures counter' == Offset(p, m + 1) && InBounds(Indices(p, m), a.Length)
    ensures a[..] == Unpacked(p, m, old(a[..]), buffer[..])
  {
    hide W.Area, W.Box, W.Hyper, W.idx4D, Scatter, InBounds, Length, Distinct, Count;
    IndicesFit(p, m);
    if m < p.n2 {
      counter' := W.UnpackArea(a, buffer, counter, p.ilo, p.ihi, p.jlo, p.jhi, 0, 0, p.d);
    } else if m < p.n2 + p.n3 {
      counter' := W.UnpackBox(a, buffer, counter, p.ilo, p.ihi, p.klo, p.khi, p.jlo, p.jhi, 0, p.d);
    } else {
      var q := m - p.n2 - p.n3;
      counter' := W.UnpackHyper(a, buffer, counter, p.ilo, p.ihi, p.klo, p.khi, p.jlo, p.jhi,
                                p.first4, p.first4 + p.Scalars(q), p.d);
    }
  }

  /** The first m arrays are unpacked, the others as they were. */
  ghost predicate UnpackedUpTo<T>(p: Params, arrays: seq<array<T>>, before: seq<seq<T>>, buffer: seq<T>, m: nat)
    requires Legal(p) && |arrays| == |before| == p.Total() && |buffer| == Offset(p, p.Total())
    requires forall i :: 0 <= i < |arrays| ==> |before[i]| == Length(p, i)
    reads arrays
  {
    && (forall i :: 0 <= i < m && i < |arrays| ==> arrays[i][..] == WholeUnpacked(p, i, before[i], buffer))
    && (forall i :: m <= i < |arrays| ==> arrays[i][..] == before[i])
  }

  ghost function WholeUnpacked<T>(p: Params, m: nat, a: seq<T>, buffer: seq<T>): seq<T>
    requires Legal(p) && m < p.Total() && |a| == Length(p, m) && |buffer| == Offset(p, p.Total())
  {
    IndicesFit(p, m);
    OffsetGrows(p, m + 1, p.Total());
    Unpacked(p, m, a, buffer)
  }

  /** One more array; the others stay. */
  method UnpackNext<T>(p: Params, m: nat, a: array<T>, buffer: array<T>, counter: nat, ghost arrays: seq<array<T>>,
                       ghost before: seq<seq<T>>)
    returns (counter': nat)
    requires Fields(p, arrays, buffer) && m < p.Total() && a == arrays[m] && counter == Offset(p, m)
    requires |before| == |arrays| && forall i :: 0 <= i < |arrays| ==> |before[i]| == Length(p, i)
    requires UnpackedUpTo(p, arrays, before, buffer[..], m)
    modifies a
    ensures counter' == Offset(p, m + 1) && UnpackedUpTo(p, arrays, before, buffer[..], m + 1)
  {
    hide Legal, Length, Indices, Unpacked;
    OffsetGrows(p, m + 1, p.Total());
    counter' := UnpackArray(p, m, a, buffer, counter);
  }

  /** The unpack loops. */
  method UnpackAll<T>(p: Params, array2Ds: seq<array<T>>, array3Ds: seq<array<T>>, array4Ds: seq<array<T>>,
                      buffer: array<T>)
    returns (counter: nat)
    requires Fields(p, array2Ds + array3Ds + array4Ds, buffer)
    requires |array2Ds| == p.n2 && |array3Ds| == p.n3
    modifies array2Ds, array3Ds, array4Ds
    ensures counter == Offset(p, p.Total())
    ensures var arrays := array2Ds + array3Ds + array4Ds;
      forall m :: 0 <= m < p.Total() ==> arrays[m][..] == WholeUnpacked(p, m, old(arrays[m][..]), buffer[..])
  {
    hide Legal, Length, Indices, WholeUnpacked, UnpackedUpTo, Contents;
    ghost var arrays := array2Ds + array3Ds + array4Ds;
    ghost var before := Contents(arrays);
    counter := 0;
    AllAsBefore(p, arrays, before, buffer[..]);
    for m := 0 to p.n2
      invariant counter == Offset(p, m) && UnpackedUpTo(p, arrays, before, buffer[..], m)
    {
      counter := UnpackNext(p, m, array2Ds[m], buffer, counter, arrays, before);
    }
    for m := 0 to p.n3
      invariant counter == Offset(p, p.n2 + m) && UnpackedUpTo(p, arrays, before, buffer[..], p.n2 + m)
    {
      counter := UnpackNext(p, p.n2 + m, array3Ds[m], buffer, counter, arrays, before);
    }
    for m := 0 to |p.limits|
      invariant counter == Offset(p, p.n2 + p.n3 + m) && UnpackedUpTo(p, arrays, before, buffer[..], p.n2 + p.n3 + m)
    {
      counter := UnpackNext(p, p.n2 + p.n3 + m, array4Ds[m], buffer, counter, arrays, before);
    }
    AllUnpacked(p, arrays, before, buffer[..]);
  }

  ghost function Contents<T>(arrays: seq<array<T>>): (r: seq<seq<T>>)
    reads arrays
    ensures |r| == |arrays| && forall i :: 0 <= i < |r| ==> r[i] == arrays[i][..]
  {
    if arrays == [] then [] else [arrays[0][..]] + Contents(arrays[1..])
  }

  lemma AllAsBefore<T>(p: Params, arrays: seq<array<T>>, before: seq<seq<T>>, buffer: seq<T>)
    requires Legal(p) && |arrays| == |before| == p.Total() && |buffer| == Offset(p, p.Total())
    requires forall i :: 0 <= i < |arrays| ==> |before[i]| == Length(p, i) && arrays[i][..] == before[i]
    ensures UnpackedUpTo(p, arrays, before, buffer, 0)
  {}

  lemma AllUnpacked<T>(p: Params, arrays: seq<array<T>>, before: seq<seq<T>>, buffer: seq<T>)
    requires Legal(p) && |arrays| == |before| == p.Total() && |buffer| == Offset(p, p.Total())
    requires forall i :: 0 <= i < |arrays| ==> |before[i]| == Length(p, i)
    requires UnpackedUpTo(p, arrays, before, buffer, p.Total())
    ensures forall i :: 0 <= i < |arrays| ==> arrays[i][..] == WholeUnpacked(p, i, before[i], buffer)
  {}

  /** The unpacking loop inverts the packing loop, array by array: unpacking what was packed changes nothing,
      and packing what was unpacked returns it. */
  lemma UnpackInvertsPack<T>(p: Params, m: nat, a: seq<T>, buffer: seq<T>)
    requires Legal(p) && m < p.Total() && |a| == Length(p, m) && Offset(p, m + 1) <= |buffer|
    ensures InBounds(Indices(p, m), |a|)
    ensures Holds(p, m, buffer, a) ==> Unpacked(p, m, a, buffer) == a
    ensures Holds(p, m, buffer, Unpacked(p, m, a, buffer))
  {
    IndicesFit(p, m);
    GatherScatter(a, Indices(p, m), buffer[Offset(p, m)..Offset(p, m + 1)]);
  }

  // ----- the struct type -----

  function TypeOf(p: Params, m: nat): Datatype
    requires m < p.Total()
  {
    if m < p.n2 then Vector(p.Sub3(), p.Sub1(), p.d.dim1, Primitive(FLOAT))
    else if m < p.n2 + p.n3 then BoxType(p)
    else HVector(p.Scalars(m - p.n2 - p.n3), 1, p.d.dim1 * p.d.dim2 * 4 * p.d.dim3, BoxType(p))
  }

  /** The struct's entries for the arrays from m on: at each array's address, the first exchanged element.
      Four-dimensional arrays without exchanged scalars get none. */
  function StructFields(p: Params, addresses: seq<int>, m: nat): seq<Field>
    requires |addresses| == p.Total() && m <= p.Total()
    decreases p.Total() - m
  {
    if m == p.Total() then []
    else
      var rest := StructFields(p, addresses, m + 1);
      if m >= p.n2 + p.n3 && p.Scalars(m - p.n2 - p.n3) == 0 then rest
      else [Field(addresses[m] + 4 * First(p, m), 1, TypeOf(p, m))] + rest
  }

  /** The bytes of the elements that the loops visit, in their order. */
  function LoopBytes(p: Params, addresses: seq<int>, m: nat): seq<int>
    requires |addresses| == p.Total() && m <= p.Total()
    decreases p.Total() - m
  {
    if m == p.Total() then []
    else Shift(ElementBytes(4, Indices(p, m)), addresses[m]) + LoopBytes(p, addresses, m + 1)
  }

  function BoxType(p: Params): Datatype {
    HVector(p.Sub3(), 1, p.d.dim1 * p.d.dim2 * 4, Vector(p.Sub2(), p.Sub1(), p.d.dim1, Primitive(FLOAT)))
  }

  lemma BoxTypeIsBox(p: Params)
    ensures Map(BoxType(p)) == ElementBytes(4, W.Box(p.Sub1(), p.Sub2(), p.Sub3(), p.d))
  {
    hide Map, ElementBytes, Rep;
    VectorIsPlane(FLOAT, p.Sub2(), p.Sub1(), p.d.dim1);
    HVectorOfOne(p.Sub3(), p.d.dim1 * p.d.dim2, Vector(p.Sub2(), p.Sub1(), p.d.dim1, Primitive(FLOAT)),
                 W.Area(p.Sub1(), p.Sub2(), p.d));
  }

  lemma HyperTypeIsHyper(p: Params, n: int)
    ensures Map(HVector(n, 1, p.d.dim1 * p.d.dim2 * 4 * p.d.dim3, BoxType(p)))
         == ElementBytes(4, W.Hyper(p.Sub1(), p.Sub2(), p.Sub3(), n, p.d))
  {
    hide Map, ElementBytes, Rep, BoxType;
    BoxTypeIsBox(p);
    assert p.d.dim1 * p.d.dim2 * 4 * p.d.dim3 == p.d.dim1 * p.d.dim2 * p.d.dim3 * 4;
    HVectorOfOne(n, p.d.dim1 * p.d.dim2 * p.d.dim3, BoxType(p), W.Box(p.Sub1(), p.Sub2(), p.Sub3(), p.d));
  }

  lemma TypeIsShape(p: Params, m: nat)
    requires m < p.Total()
    ensures Map(TypeOf(p, m)) == ElementBytes(4, Shape(p, m))
  {
    hide Map, ElementBytes, Rep, BoxType, W.Box, W.Hyper;
    if m < p.n2 {
      VectorIsPlane(FLOAT, p.Sub3(), p.Sub1(), p.d.dim1);
    } else if m < p.n2 + p.n3 {
      BoxTypeIsBox(p);
    } else {
      HyperTypeIsHyper(p, p.Scalars(m - p.n2 - p.n3));
    }
  }

  /** An hvector of single blocks repeats the elements of its base. */
  lemma HVectorOfOne(count: int, step: int, base: Datatype, idx: seq<int>)
    requires Map(base) == ElementBytes(4, idx)
    ensures Map(HVector(count, 1, step * 4, base)) == ElementBytes(4, Rep(idx, step, count))
  {
    RepOne(Map(base), Extent(base));
    ElementBytesRep(4, idx, step, count);
    assert 4 * step == step * 4;
  }

  lemma NoScalars(p: Params, m: nat, address: int)
    requires p.n2 + p.n3 <= m < p.Total() && p.Scalars(m - p.n2 - p.n3) == 0
    ensures Shift(ElementBytes(4, Indices(p, m)), address) == []
  {
    assert Indices(p, m) == [] && ElementBytes(4, []) == [];
  }

  /** THE LOOPS VISIT THE STRUCT'S TYPEMAP, for all dimensions, bounds and addresses. */
  lemma {:induction false} LoopsAreTypemap(p: Params, addresses: seq<int>, m: nat)
    requires |addresses| == p.Total() && m <= p.Total()
    ensures FieldsMap(StructFields(p, addresses, m)) == LoopBytes(p, addresses, m)
    decreases p.Total() - m
  {
    hide TypeOf, First, Shape, Map, ElementBytes, FieldsMap, Indices, Copies, Shift;
    if m == p.Total() {
      NoFields();
    } else {
      LoopsAreTypemap(p, addresses, m + 1);
      if m >= p.n2 + p.n3 && p.Scalars(m - p.n2 - p.n3) == 0 {
        NoScalars(p, m, addresses[m]);
      } else {
        var f := Field(addresses[m] + 4 * First(p, m), 1, TypeOf(p, m));
        FirstField(p, addresses, m);
        FieldsMapStep(f, StructFields(p, addresses, m + 1));
      }
    }
  }

  /** It is the struct's MPI typemap, whatever bounds the struct itself stores. */
  lemma LoopsAreMpi(p: Params, addresses: seq<int>)
    requires |addresses| == p.Total() && Positive(Struct(StructFields(p, addresses, 0)))
    ensures MpiMap(Struct(StructFields(p, addresses, 0))) == LoopBytes(p, addresses, 0)
  {
    hide StructFields, LoopBytes, Meaning, FieldsMap;
    LoopsAreTypemap(p, addresses, 0);
    FieldsAreMet(p, addresses, 0);
    var t := Struct(StructFields(p, addresses, 0));
    assert Map(t) == FieldsMap(t.fields) && MapOk(t);
    MapOkIsRight(t);
  }

  lemma {:induction false} FieldsAreMet(p: Params, addresses: seq<int>, m: nat)
    requires |addresses| == p.Total() && m <= p.Total()
    ensures FieldsMapOk(StructFields(p, addresses, m))
    decreases p.Total() - m
  {
    hide TypeOf, First, ExtentOk;
    if m < p.Total() {
      FieldsAreMet(p, addresses, m + 1);
      if !(m >= p.n2 + p.n3 && p.Scalars(m - p.n2 - p.n3) == 0) {
        var f, rest := Field(addresses[m] + 4 * First(p, m), 1, TypeOf(p, m)), StructFields(p, addresses, m + 1);
        TypesAreUnindexed(p, m);
        UnindexedIsMet(TypeOf(p, m), 1);
        assert ([f] + rest)[1..] == rest;
      }
    }
  }

  lemma TypesAreUnindexed(p: Params, m: nat)
    requires m < p.Total()
    ensures Unindexed(TypeOf(p, m))
  {
    assert Unindexed(Vector(p.Sub2(), p.Sub1(), p.d.dim1, Primitive(FLOAT)));
    assert Unindexed(BoxType(p));
  }

  lemma NoFields()
    ensures FieldsMap([]) == []
  {}

  lemma FieldsMapStep(f: Field, rest: seq<Field>)
    ensures FieldsMap([f] + rest) == Shift(Copies(f.typ, f.blocklen), f.displ) + FieldsMap(rest)
  {
    hide Copies;
    assert ([f] + rest)[1..] == rest;
  }

  lemma FirstField(p: Params, addresses: seq<int>, m: nat)
    requires |addresses| == p.Total() && m < p.Total()
    ensures var f := Field(addresses[m] + 4 * First(p, m), 1, TypeOf(p, m));
      Shift(Copies(f.typ, f.blocklen), f.displ) == Shift(ElementBytes(4, Indices(p, m)), addresses[m])
  {
    hide TypeOf, First, Shape, Map, ElementBytes, Extent;
    TypeIsShape(p, m);
    RepOne(Map(TypeOf(p, m)), Extent(TypeOf(p, m)));
    ElementBytesShift(4, Shape(p, m), First(p, m));
    ShiftShift(ElementBytes(4, Shape(p, m)), 4 * First(p, m), addresses[m]);
  }
}
