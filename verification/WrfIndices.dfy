/** Which elements the WRF exchange moves, and in which order, written out: the inclusive bounds of the sub-box, the
    scalars from the first one up to each array's limit, the first dimension innermost. */
module WrfIndices {
  import opened Arithmetic
  import opened Typemap
  import opened Bounds
  import opened Elements
  import opened WrfExchange
  import Nas
  import W = Wrf

  // ----- boxes -----

  lemma AreaAt(n1: int, n2: int, d: W.Dims, x: int, y: int)
    requires 0 <= x < n1 && 0 <= y < n2
    ensures |W.Area(n1, n2, d)| == n2 * n1 && 0 <= y * n1 + x < n2 * n1
    ensures W.Area(n1, n2, d)[y * n1 + x] == x + y * d.dim1
  {
    Nas.PlaneAt(1, n1, d.dim1, n2, y, x);
    RepLength([0], 1, n1);
    RepLength(Row(1, n1), d.dim1, n2);
  }

  lemma BoxAt(n1: int, n2: int, n3: int, d: W.Dims, x: int, y: int, z: int)
    requires 0 <= x < n1 && 0 <= y < n2 && 0 <= z < n3
    ensures |W.Box(n1, n2, n3, d)| == n3 * (n2 * n1) && 0 <= z * (n2 * n1) + (y * n1 + x) < n3 * (n2 * n1)
    ensures W.Box(n1, n2, n3, d)[z * (n2 * n1) + (y * n1 + x)] == x + y * d.dim1 + z * (d.dim1 * d.dim2)
  {
    hide Rep, W.Area;
    AreaAt(n1, n2, d, x, y);
    RepAt(W.Area(n1, n2, d), d.dim1 * d.dim2, n3, z, y * n1 + x);
    RepLength(W.Area(n1, n2, d), d.dim1 * d.dim2, n3);
  }

  lemma HyperAt(n1: int, n2: int, n3: int, n4: int, d: W.Dims, x: int, y: int, z: int, t: int)
    requires 0 <= x < n1 && 0 <= y < n2 && 0 <= z < n3 && 0 <= t < n4
    ensures var i := t * (n3 * (n2 * n1)) + (z * (n2 * n1) + (y * n1 + x));
      && |W.Hyper(n1, n2, n3, n4, d)| == n4 * (n3 * (n2 * n1)) && 0 <= i < n4 * (n3 * (n2 * n1))
      && W.Hyper(n1, n2, n3, n4, d)[i]
         == x + y * d.dim1 + z * (d.dim1 * d.dim2) + t * (d.dim1 * d.dim2 * d.dim3)
  {
    hide Rep, W.Box;
    BoxAt(n1, n2, n3, d, x, y, z);
    RepAt(W.Box(n1, n2, n3, d), d.dim1 * d.dim2 * d.dim3, n4, t, z * (n2 * n1) + (y * n1 + x));
    RepLength(W.Box(n1, n2, n3, d), d.dim1 * d.dim2 * d.dim3, n4);
  }

  /** The position of an element in an array of four dimensions, from the strides. */
  lemma Flat(x: int, y: int, z: int, t: int, d: W.Dims)
    ensures x + d.dim1 * (y + d.dim2 * (z + d.dim3 * t))
         == x + y * d.dim1 + z * (d.dim1 * d.dim2) + t * (d.dim1 * d.dim2 * d.dim3)
  {
    Expand(x, y, z, t, d);
  }

  /** From the first element of the sub-box. */
  lemma FromFirst(x: int, y: int, z: int, t: int, x0: int, y0: int, z0: int, t0: int, d: W.Dims)
    ensures (x - x0) + (y - y0) * d.dim1 + (z - z0) * (d.dim1 * d.dim2) + (t - t0) * (d.dim1 * d.dim2 * d.dim3)
            + W.idx4D(x0, y0, z0, t0, d)
         == x + d.dim1 * (y + d.dim2 * (z + d.dim3 * t))
  {
    Expand(x0, y0, z0, t0, d);
    Sums(y - y0, y0, d.dim1);
    Sums(z - z0, z0, d.dim1 * d.dim2);
    Sums(t - t0, t0, d.dim1 * d.dim2 * d.dim3);
    Flat(x, y, z, t, d);
  }

  /** Without the dimensions that an array does not have. */
  lemma FewerDimensions(d: W.Dims)
    ensures d.dim3 * 0 == 0 && d.dim2 * 0 == 0
    ensures 0 * (d.dim1 * d.dim2) == 0 && 0 * (d.dim1 * d.dim2 * d.dim3) == 0
  {}

  lemma Sums(a: int, b: int, c: int)
    ensures (a + b) * c == a * c + b * c
  {
    MulDistributes(a, b, c);
  }

  // ----- the indices, one by one -----

  /** Two-dimensional arrays: x from ilo to ihi, for y from jlo to jhi. */
  lemma IndicesAt2D(p: Params, m: nat, x: int, y: int)
    requires Legal(p) && m < p.n2 && p.ilo <= x <= p.ihi && p.jlo <= y <= p.jhi
    ensures var n1 := p.ihi - p.ilo + 1;
      && |Indices(p, m)| == (p.jhi - p.jlo + 1) * n1 && 0 <= (y - p.jlo) * n1 + (x - p.ilo) < |Indices(p, m)|
      && Indices(p, m)[(y - p.jlo) * n1 + (x - p.ilo)] == x + p.d.dim1 * y
  {
    hide W.Area, W.idx4D, Legal;
    AreaAt(p.Sub1(), p.Sub3(), p.d, x - p.ilo, y - p.jlo);
    FromFirst(x, y, 0, 0, p.ilo, p.jlo, 0, 0, p.d);
    FewerDimensions(p.d);
  }

  /** Three-dimensional arrays: x from ilo to ihi, for y from klo to khi, for z from jlo to jhi. */
  lemma IndicesAt3D(p: Params, m: nat, x: int, y: int, z: int)
    requires Legal(p) && p.n2 <= m < p.n2 + p.n3
    requires p.ilo <= x <= p.ihi && p.klo <= y <= p.khi && p.jlo <= z <= p.jhi
    ensures var n1, n2 := p.ihi - p.ilo + 1, p.khi - p.klo + 1;
      var i := (z - p.jlo) * (n2 * n1) + ((y - p.klo) * n1 + (x - p.ilo));
      && |Indices(p, m)| == (p.jhi - p.jlo + 1) * (n2 * n1) && 0 <= i < |Indices(p, m)|
      && Indices(p, m)[i] == x + p.d.dim1 * (y + p.d.dim2 * z)
  {
    hide W.Box, W.idx4D, Legal;
    BoxAt(p.Sub1(), p.Sub2(), p.Sub3(), p.d, x - p.ilo, y - p.klo, z - p.jlo);
    FromFirst(x, y, z, 0, p.ilo, p.klo, p.jlo, 0, p.d);
    FewerDimensions(p.d);
  }

  /** Four-dimensional arrays: the same for the scalars t from the first one on that are below the array's limit. */
  lemma IndicesAt4D(p: Params, m: nat, x: int, y: int, z: int, t: int)
    requires Legal(p) && p.n2 + p.n3 <= m < p.Total() && p.first4 <= t < p.limits[m - p.n2 - p.n3]
    requires p.ilo <= x <= p.ihi && p.klo <= y <= p.khi && p.jlo <= z <= p.jhi
    ensures var n1, n2, n3 := p.ihi - p.ilo + 1, p.khi - p.klo + 1, p.jhi - p.jlo + 1;
      var i := (t - p.first4) * (n3 * (n2 * n1)) + ((z - p.jlo) * (n2 * n1) + ((y - p.klo) * n1 + (x - p.ilo)));
      && |Indices(p, m)| == (p.limits[m - p.n2 - p.n3] - p.first4) * (n3 * (n2 * n1)) && 0 <= i < |Indices(p, m)|
      && Indices(p, m)[i] == x + p.d.dim1 * (y + p.d.dim2 * (z + p.d.dim3 * t))
  {
    hide W.Hyper, W.idx4D, Legal;
    var n4 := p.limits[m - p.n2 - p.n3] - p.first4;
    HyperAt(p.Sub1(), p.Sub2(), p.Sub3(), n4, p.d, x - p.ilo, y - p.klo, z - p.jlo, t - p.first4);
    FromFirst(x, y, z, t, p.ilo, p.klo, p.jlo, p.first4, p.d);
  }

  // ----- no others -----

  lemma AreaMember(n1: int, n2: int, d: W.Dims, i: int) returns (x: int, y: int)
    requires i in W.Area(n1, n2, d) && n1 >= 0 && n2 >= 0
    ensures 0 <= x < n1 && 0 <= y < n2 && i == x + y * d.dim1
  {
    var j: int, k: int;
    y, j := RepMember(Row(1, n1), d.dim1, n2, i);
    x, k := RepMember([0], 1, n1, Row(1, n1)[j]);
  }

  lemma BoxMember(n1: int, n2: int, n3: int, d: W.Dims, i: int) returns (x: int, y: int, z: int)
    requires i in W.Box(n1, n2, n3, d) && n1 >= 0 && n2 >= 0 && n3 >= 0
    ensures 0 <= x < n1 && 0 <= y < n2 && 0 <= z < n3 && i == x + y * d.dim1 + z * (d.dim1 * d.dim2)
  {
    hide W.Area;
    var j: int;
    z, j := RepMember(W.Area(n1, n2, d), d.dim1 * d.dim2, n3, i);
    x, y := AreaMember(n1, n2, d, W.Area(n1, n2, d)[j]);
  }

  lemma HyperMember(n1: int, n2: int, n3: int, n4: int, d: W.Dims, i: int) returns (x: int, y: int, z: int, t: int)
    requires i in W.Hyper(n1, n2, n3, n4, d) && n1 >= 0 && n2 >= 0 && n3 >= 0 && n4 >= 0
    ensures 0 <= x < n1 && 0 <= y < n2 && 0 <= z < n3 && 0 <= t < n4
    ensures i == x + y * d.dim1 + z * (d.dim1 * d.dim2) + t * (d.dim1 * d.dim2 * d.dim3)
  {
    hide W.Box;
    var j: int;
    t, j := RepMember(W.Box(n1, n2, n3, d), d.dim1 * d.dim2 * d.dim3, n4, i);
    x, y, z := BoxMember(n1, n2, n3, d, W.Box(n1, n2, n3, d)[j]);
  }

  ghost predicate Exchanged2D(p: Params, i: int) {
    exists x, y :: p.ilo <= x <= p.ihi && p.jlo <= y <= p.jhi && i == Element(p, x, y, 0, 0)
  }

  ghost predicate Exchanged3D(p: Params, i: int) {
    exists x, y, z :: p.ilo <= x <= p.ihi && p.klo <= y <= p.khi && p.jlo <= z <= p.jhi && i == Element(p, x, y, z, 0)
  }

  ghost predicate Exchanged4D(p: Params, limit: int, i: int) {
    exists x, y, z, t ::
      && p.ilo <= x <= p.ihi && p.klo <= y <= p.khi && p.jlo <= z <= p.jhi && p.first4 <= t < limit
      && i == Element(p, x, y, z, t)
  }

  function Element(p: Params, x: int, y: int, z: int, t: int): int {
    x + p.d.dim1 * (y + p.d.dim2 * (z + p.d.dim3 * t))
  }

  lemma ZeroDimensions(p: Params, x: int, y: int, z: int)
    ensures Element(p, x, y, z, 0) == x + p.d.dim1 * (y + p.d.dim2 * z)
    ensures Element(p, x, y, 0, 0) == x + p.d.dim1 * y
  {
    assert p.d.dim3 * 0 == 0 && p.d.dim2 * 0 == 0;
  }

  /** EXACTLY THE SUB-BOX IS EXCHANGED of each array, and of a four-dimensional one exactly the scalars from the first
      one up to, but not including, its limit. */
  lemma IndicesExact(p: Params, m: nat, i: int)
    requires Legal(p) && m < p.Total()
    ensures m < p.n2 ==> (i in Indices(p, m) <==> Exchanged2D(p, i))
    ensures p.n2 <= m < p.n2 + p.n3 ==> (i in Indices(p, m) <==> Exchanged3D(p, i))
    ensures p.n2 + p.n3 <= m ==> (i in Indices(p, m) <==> Exchanged4D(p, p.limits[m - p.n2 - p.n3], i))
  {
    hide Indices, Legal, Exchanged2D, Exchanged3D, Exchanged4D;
    if m < p.n2 {
      if i in Indices(p, m) { Inside2D(p, m, i); }
      if Exchanged2D(p, i) { Listed2D(p, m, i); }
    } else if m < p.n2 + p.n3 {
      if i in Indices(p, m) { Inside3D(p, m, i); }
      if Exchanged3D(p, i) { Listed3D(p, m, i); }
    } else {
      if i in Indices(p, m) { Inside4D(p, m, i); }
      if Exchanged4D(p, p.limits[m - p.n2 - p.n3], i) { Listed4D(p, m, i); }
    }
  }

  lemma Listed2D(p: Params, m: nat, i: int)
    requires Legal(p) && m < p.n2 && Exchanged2D(p, i)
    ensures i in Indices(p, m)
  {
    hide Indices, Legal, Element;
    var x, y :| p.ilo <= x <= p.ihi && p.jlo <= y <= p.jhi && i == Element(p, x, y, 0, 0);
    IndicesAt2D(p, m, x, y);
    ZeroDimensions(p, x, y, 0);
  }

  lemma Listed3D(p: Params, m: nat, i: int)
    requires Legal(p) && p.n2 <= m < p.n2 + p.n3 && Exchanged3D(p, i)
    ensures i in Indices(p, m)
  {
    hide Indices, Legal, Element;
    var x, y, z :| p.ilo <= x <= p.ihi && p.klo <= y <= p.khi && p.jlo <= z <= p.jhi && i == Element(p, x, y, z, 0);
    IndicesAt3D(p, m, x, y, z);
    ZeroDimensions(p, x, y, z);
  }

  lemma Listed4D(p: Params, m: nat, i: int)
    requires Legal(p) && p.n2 + p.n3 <= m < p.Total() && Exchanged4D(p, p.limits[m - p.n2 - p.n3], i)
    ensures i in Indices(p, m)
  {
    hide Indices, Legal;
    var x, y, z, t :|
      && p.ilo <= x <= p.ihi && p.klo <= y <= p.khi && p.jlo <= z <= p.jhi
      && p.first4 <= t < p.limits[m - p.n2 - p.n3] && i == Element(p, x, y, z, t);
    IndicesAt4D(p, m, x, y, z, t);
  }

  lemma ShiftedMember(tm: seq<int>, d: int, i: int)
    requires i in Shift(tm, d)
    ensures i - d in tm
  {
    var k :| 0 <= k < |tm| && Shift(tm, d)[k] == i;
    assert tm[k] == i - d;
  }

  lemma Inside2D(p: Params, m: nat, i: int)
    requires Legal(p) && m < p.n2 && i in Indices(p, m)
    ensures Exchanged2D(p, i)
  {
    hide W.Area, W.idx4D;
    ShiftedMember(Shape(p, m), First(p, m), i);
    var x, y := AreaMember(p.Sub1(), p.Sub3(), p.d, i - First(p, m));
    FromFirst(p.ilo + x, p.jlo + y, 0, 0, p.ilo, p.jlo, 0, 0, p.d);
    FewerDimensions(p.d);
    assert i == Element(p, p.ilo + x, p.jlo + y, 0, 0);
  }

  lemma Inside3D(p: Params, m: nat, i: int)
    requires Legal(p) && p.n2 <= m < p.n2 + p.n3 && i in Indices(p, m)
    ensures Exchanged3D(p, i)
  {
    hide W.Box, W.idx4D;
    ShiftedMember(Shape(p, m), First(p, m), i);
    var x, y, z := BoxMember(p.Sub1(), p.Sub2(), p.Sub3(), p.d, i - First(p, m));
    FromFirst(p.ilo + x, p.klo + y, p.jlo + z, 0, p.ilo, p.klo, p.jlo, 0, p.d);
    FewerDimensions(p.d);
    assert i == Element(p, p.ilo + x, p.klo + y, p.jlo + z, 0);
  }

  lemma Inside4D(p: Params, m: nat, i: int)
    requires Legal(p) && p.n2 + p.n3 <= m < p.Total() && i in Indices(p, m)
    ensures Exchanged4D(p, p.limits[m - p.n2 - p.n3], i)
  {
    hide W.Hyper, W.idx4D;
    var q := m - p.n2 - p.n3;
    ShiftedMember(Shape(p, m), First(p, m), i);
    var x, y, z, t := HyperMember(p.Sub1(), p.Sub2(), p.Sub3(), p.Scalars(q), p.d, i - First(p, m));
    FromFirst(p.ilo + x, p.klo + y, p.jlo + z, p.first4 + t, p.ilo, p.klo, p.jlo, p.first4, p.d);
    assert i == Element(p, p.ilo + x, p.klo + y, p.jlo + z, p.first4 + t);
  }

  // ----- how many -----

  /** Elements of one array, by the inclusive bounds and the limit. */
  lemma CountExact(p: Params, m: nat)
    requires Legal(p) && m < p.Total()
    ensures Offset(p, 0) == 0
    ensures var n1, n2, n3 := p.ihi - p.ilo + 1, p.khi - p.klo + 1, p.jhi - p.jlo + 1;
      && (m < p.n2 ==> Offset(p, m + 1) == Offset(p, m) + n3 * n1)
      && (p.n2 <= m < p.n2 + p.n3 ==> Offset(p, m + 1) == Offset(p, m) + n3 * (n2 * n1))
      && (p.n2 + p.n3 <= m ==>
            var limit := p.limits[m - p.n2 - p.n3];
            Offset(p, m + 1)
            == Offset(p, m) + (if limit > p.first4 then (limit - p.first4) * (n3 * (n2 * n1)) else 0))
  {
    hide Indices, Shape, Legal, Length;
    IndicesFit(p, m);
    assert 0 * (p.Sub3() * (p.Sub2() * p.Sub1())) == 0;
  }

  // ----- the struct's displacements -----

  /** The struct has one entry of one item for each array of which something is exchanged, at the address of its first
      exchanged element. */
  lemma FirstElementAt(p: Params, m: nat)
    requires Legal(p) && m < p.Total()
    ensures m < p.n2 ==> First(p, m) == p.ilo + p.d.dim1 * p.jlo
    ensures p.n2 <= m < p.n2 + p.n3 ==> First(p, m) == p.ilo + p.d.dim1 * (p.klo + p.d.dim2 * p.jlo)
    ensures p.n2 + p.n3 <= m ==>
      First(p, m) == p.ilo + p.d.dim1 * (p.klo + p.d.dim2 * (p.jlo + p.d.dim3 * p.first4))
  {
    assert p.d.dim3 * 0 == 0 && p.d.dim2 * 0 == 0;
  }
}
