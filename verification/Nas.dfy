/** The three face exchanges of the NAS MG benchmark: hand-written pack and unpack loops against the
    datatypes built for the same faces. */
module Nas {
  import opened Arithmetic
  import opened Datatypes
  import opened Typemap
  import opened Wellformed
  import opened Bounds
  import opened Mpi
  import opened MpiTrees
  import opened Transfers
  import opened Elements

  function idx3D(x: int, y: int, z: int, DIM1: int, DIM2: int): int { x + DIM1 * (y + z * DIM2) }

  /** The indices of the faces, in the order of the loops. */
  function FaceX(x: int, DIM1: int, DIM2: int, DIM3: int): seq<int> {
    Shift(Plane(DIM1, DIM2 - 2, DIM1 * DIM2, DIM3 - 2), idx3D(x, 1, 1, DIM1, DIM2))
  }

  function FaceY(y: int, DIM1: int, DIM2: int, DIM3: int): seq<int> {
    Shift(Plane(1, DIM1 - 2, DIM1 * DIM2, DIM3 - 2), idx3D(1, y, 1, DIM1, DIM2))
  }

  function FaceZ(z: int, DIM1: int, DIM2: int, DIM3: int): seq<int> {
    Shift(Plane(1, DIM1 - 2, DIM1, DIM2 - 2), idx3D(1, 1, z, DIM1, DIM2))
  }

  // ----- the datatypes built beside the loops -----

  function TypeX(DIM1: int, DIM2: int, DIM3: int): Datatype {
    HVector(DIM3 - 2, 1, DIM1 * DIM2 * 8, Vector(DIM2 - 2, 1, DIM1, Primitive(DOUBLE)))
  }

  function TypeY(DIM1: int, DIM2: int, DIM3: int): Datatype {
    Vector(DIM3 - 2, DIM1 - 2, DIM1 * DIM2, Primitive(DOUBLE))
  }

  function TypeZ(DIM1: int, DIM2: int, DIM3: int): Datatype {
    Vector(DIM2 - 2, DIM1 - 2, DIM1, Primitive(DOUBLE))
  }

  /** A vector of blocks of consecutive elements. */
  lemma VectorIsPlane(p: PrimitiveType, count: int, blocklen: int, stride: int)
    ensures Map(Vector(count, blocklen, stride, Primitive(p)))
         == ElementBytes(PrimitiveSize(p), Plane(1, blocklen, stride, count))
  {
    hide ElementBytes, Rep;
    RowBytes(p, 1, blocklen);
    ElementBytesRep(PrimitiveSize(p), Row(1, blocklen), stride, count);
    assert Copies(Primitive(p), blocklen) == ElementBytes(PrimitiveSize(p), Row(1, blocklen));
    assert stride * PrimitiveSize(p) == PrimitiveSize(p) * stride;
  }

  /** A vector of single elements. */
  lemma VectorIsRow(p: PrimitiveType, count: int, stride: int)
    ensures Map(Vector(count, 1, stride, Primitive(p))) == ElementBytes(PrimitiveSize(p), Row(stride, count))
  {
    RowBytes(p, stride, count);
    RepOne(Map(Primitive(p)), PrimitiveSize(p));
    assert Copies(Primitive(p), 1) == Map(Primitive(p));
  }

  /** THE LOOPS VISIT THE TYPEMAPS: the bytes of the elements a manual loop visits, in its order, are
      those of the datatype at the address the benchmark passes with it, for all dimensions. */
  lemma FacesAreTypemaps(x: int, y: int, z: int, DIM1: int, DIM2: int, DIM3: int)
    ensures ElementBytes(8, FaceX(x, DIM1, DIM2, DIM3))
         == Shift(Map(TypeX(DIM1, DIM2, DIM3)), 8 * idx3D(x, 1, 1, DIM1, DIM2))
    ensures ElementBytes(8, FaceY(y, DIM1, DIM2, DIM3))
         == Shift(Map(TypeY(DIM1, DIM2, DIM3)), 8 * idx3D(1, y, 1, DIM1, DIM2))
    ensures ElementBytes(8, FaceZ(z, DIM1, DIM2, DIM3))
         == Shift(Map(TypeZ(DIM1, DIM2, DIM3)), 8 * idx3D(1, 1, z, DIM1, DIM2))
  {
    hide ElementBytes, Map, Shift, Row;
    TypeXIsPlane(DIM1, DIM2, DIM3);
    ElementBytesShift(8, Plane(DIM1, DIM2 - 2, DIM1 * DIM2, DIM3 - 2), idx3D(x, 1, 1, DIM1, DIM2));
    VectorIsPlane(DOUBLE, DIM3 - 2, DIM1 - 2, DIM1 * DIM2);
    ElementBytesShift(8, Plane(1, DIM1 - 2, DIM1 * DIM2, DIM3 - 2), idx3D(1, y, 1, DIM1, DIM2));
    VectorIsPlane(DOUBLE, DIM2 - 2, DIM1 - 2, DIM1);
    ElementBytesShift(8, Plane(1, DIM1 - 2, DIM1, DIM2 - 2), idx3D(1, 1, z, DIM1, DIM2));
  }

  /** They are MPI's typemaps, whenever the face has a point. */
  lemma FacesAreMpi(DIM1: int, DIM2: int, DIM3: int)
    requires DIM1 >= 3 && DIM2 >= 3 && DIM3 >= 3
    ensures MpiMap(TypeX(DIM1, DIM2, DIM3)) == Map(TypeX(DIM1, DIM2, DIM3))
    ensures MpiMap(TypeY(DIM1, DIM2, DIM3)) == Map(TypeY(DIM1, DIM2, DIM3))
    ensures MpiMap(TypeZ(DIM1, DIM2, DIM3)) == Map(TypeZ(DIM1, DIM2, DIM3))
  {
    hide Map, MpiMap, MapOk;
    MulPositive(DIM1, DIM2);
    VectorIsMpi(TypeX(DIM1, DIM2, DIM3));
    VectorIsMpi(TypeY(DIM1, DIM2, DIM3));
    VectorIsMpi(TypeZ(DIM1, DIM2, DIM3));
  }

  lemma VectorIsMpi(t: Datatype)
    requires Positive(t) && Unindexed(t)
    ensures MpiMap(t) == Map(t)
  {
    UnindexedIsMet(t, 1);
    MapOkIsRight(t);
  }

  lemma TypeXIsPlane(DIM1: int, DIM2: int, DIM3: int)
    ensures Map(TypeX(DIM1, DIM2, DIM3)) == ElementBytes(8, Plane(DIM1, DIM2 - 2, DIM1 * DIM2, DIM3 - 2))
  {
    var v := Vector(DIM2 - 2, 1, DIM1, Primitive(DOUBLE));
    VectorIsRow(DOUBLE, DIM2 - 2, DIM1);
    ElementBytesRep(8, Row(DIM1, DIM2 - 2), DIM1 * DIM2, DIM3 - 2);
    RepOne(Map(v), Extent(v));
    assert 8 * (DIM1 * DIM2) == DIM1 * DIM2 * 8;
  }

  // ----- distinct and in bounds -----

  /** A plane of n by m elements in an array of `len`, from `first`. */
  lemma PlaneFits(step: int, n: int, pitch: int, m: int, first: int, len: int)
    requires step >= 1 && n >= 0 && m >= 0 && pitch >= n * step && first >= 0
    requires n >= 1 && m >= 1 ==> first + (m - 1) * pitch + (n - 1) * step < len
    ensures InBounds(Shift(Plane(step, n, pitch, m), first), len) && Distinct(Shift(Plane(step, n, pitch, m), first))
    ensures |Plane(step, n, pitch, m)| == m * n
  {
    RepLength([0], step, n);
    RepLength(Row(step, n), pitch, m);
    assert Within([0], 0, 1) && Distinct([0]);
    RepDistinct([0], step, n, 0, 1);
    if n >= 1 {
      RepWithin([0], step, n, 0, 1);
      var width := 1 + step * (n - 1);
      assert width <= n * step by { MulDistributes(n, 1, step); }
      RepDistinct(Row(step, n), pitch, m, 0, width);
      if m >= 1 { RepWithin(Row(step, n), pitch, m, 0, width); }
    } else {
      RepDistinct(Row(step, n), pitch, m, 0, 0);
    }
    DistinctShift(Plane(step, n, pitch, m), first);
    assert step * (n - 1) == (n - 1) * step && pitch * (m - 1) == (m - 1) * pitch;
  }

  predicate Dims(DIM1: int, DIM2: int, DIM3: int, len: int) {
    DIM1 >= 2 && DIM2 >= 2 && DIM3 >= 2 && len == DIM1 * DIM2 * DIM3
  }

  lemma FaceXFits(x: int, DIM1: int, DIM2: int, DIM3: int, len: int)
    requires Dims(DIM1, DIM2, DIM3, len) && 0 <= x < DIM1
    ensures var f := FaceX(x, DIM1, DIM2, DIM3);
      DIM1 >= 2 && DIM2 >= 2 && DIM3 >= 2 && InBounds(f, len) && Distinct(f) && |f| == (DIM3 - 2) * (DIM2 - 2)
  {
    var first, pitch := idx3D(x, 1, 1, DIM1, DIM2), DIM1 * DIM2;
    MulNonNegative(DIM1, DIM2);
    assert (DIM2 - 2) * DIM1 <= pitch by { MulDistributes(DIM2, 2, DIM1); }
    FlatIndex(x, DIM2 - 2, DIM3 - 2, DIM1, DIM2, DIM3);
    PlaneFits(DIM1, DIM2 - 2, pitch, DIM3 - 2, first, len);
  }

  /** idx3D of a point inside the box is inside the array. */
  lemma FlatIndex(x: int, y: int, z: int, DIM1: int, DIM2: int, DIM3: int)
    requires 0 <= x < DIM1 && 0 <= y < DIM2 && 0 <= z < DIM3
    ensures 0 <= idx3D(x, y, z, DIM1, DIM2) < DIM1 * DIM2 * DIM3
    ensures idx3D(x, y, z, DIM1, DIM2) == x + y * DIM1 + z * (DIM1 * DIM2)
  {
    MulNonNegative(z, DIM2);
    MulNonNegative(DIM1, y + z * DIM2);
    MulNonNegative(DIM3 - 1 - z, DIM2);
    MulDistributes(DIM3, 1 + z, DIM2);
    assert y + z * DIM2 <= DIM2 * DIM3 - 1;
    MulNonNegative(DIM1, DIM2 * DIM3 - 1 - (y + z * DIM2));
    MulDistributes(DIM2 * DIM3 - 1, y + z * DIM2, DIM1);
    MulDistributes(DIM2 * DIM3, 1, DIM1);
    MulAssoc(DIM1, DIM2, DIM3);
    MulDistributes(y, z * DIM2, DIM1);
    MulAssoc(z, DIM2, DIM1);
  }

  lemma FaceYFits(y: int, DIM1: int, DIM2: int, DIM3: int, len: int)
    requires Dims(DIM1, DIM2, DIM3, len) && 0 <= y < DIM2
    ensures var f := FaceY(y, DIM1, DIM2, DIM3);
      DIM1 >= 2 && DIM2 >= 2 && DIM3 >= 2 && InBounds(f, len) && Distinct(f) && |f| == (DIM3 - 2) * (DIM1 - 2)
  {
    MulPositive(DIM1, DIM2);
    FlatIndex(DIM1 - 2, y, DIM3 - 2, DIM1, DIM2, DIM3);
    FlatIndex(1, y, 1, DIM1, DIM2, DIM3);
    MulDistributes(DIM3 - 2, 1, DIM1 * DIM2);
    PlaneFits(1, DIM1 - 2, DIM1 * DIM2, DIM3 - 2, idx3D(1, y, 1, DIM1, DIM2), len);
  }

  lemma FaceZFits(z: int, DIM1: int, DIM2: int, DIM3: int, len: int)
    requires Dims(DIM1, DIM2, DIM3, len) && 0 <= z < DIM3
    ensures var f := FaceZ(z, DIM1, DIM2, DIM3);
      DIM1 >= 2 && DIM2 >= 2 && DIM3 >= 2 && InBounds(f, len) && Distinct(f) && |f| == (DIM2 - 2) * (DIM1 - 2)
  {
    FlatIndex(DIM1 - 2, DIM2 - 2, z, DIM1, DIM2, DIM3);
    FlatIndex(1, 1, z, DIM1, DIM2, DIM3);
    MulDistributes(DIM2 - 2, 1, DIM1);
    PlaneFits(1, DIM1 - 2, DIM1, DIM2 - 2, idx3D(1, 1, z, DIM1, DIM2), len);
  }

  /** Element k * n + l of a plane. */
  lemma PlaneAt(step: int, n: int, pitch: int, m: int, k: int, l: int)
    requires 0 <= k < m && 0 <= l < n
    ensures 0 <= k * n + l < |Plane(step, n, pitch, m)| && Plane(step, n, pitch, m)[k * n + l] == l * step + k * pitch
  {
    RepLength([0], step, n);
    RepAt([0], step, n, l, 0);
    RepAt(Row(step, n), pitch, m, k, l);
  }

  // ----- the loops -----

  lemma FaceXAt(x: int, l: int, k: int, DIM1: int, DIM2: int, DIM3: int)
    requires DIM1 >= 2 && DIM2 >= 2 && DIM3 >= 2 && 1 <= k < DIM3 - 1 && 1 <= l < DIM2 - 1
    ensures var (f, base) := (FaceX(x, DIM1, DIM2, DIM3), (k - 1) * (DIM2 - 2) + (l - 1));
      0 <= base < |f| && f[base] == idx3D(x, l, k, DIM1, DIM2)
  {
    PlaneAt(DIM1, DIM2 - 2, DIM1 * DIM2, DIM3 - 2, k - 1, l - 1);
    Spread(x, l, k, x, 1, 1, DIM1, DIM2);
  }

  method PackFaceX<T>(field: array<T>, buffer: array<T>, x: int, DIM1: int, DIM2: int, DIM3: int)
    requires Dims(DIM1, DIM2, DIM3, field.Length) && 0 <= x < DIM1 && field != buffer
    requires buffer.Length == (DIM3 - 2) * (DIM2 - 2)
    modifies buffer
    ensures InBounds(FaceX(x, DIM1, DIM2, DIM3), field.Length)
      && buffer[..] == Gather(field[..], FaceX(x, DIM1, DIM2, DIM3))
  {
    hide FaceX, idx3D, Dims, Plane;
    ghost var f := FaceX(x, DIM1, DIM2, DIM3);
    FaceXFits(x, DIM1, DIM2, DIM3, field.Length);
    var base := 0;
    for k := 1 to DIM3 - 1
      invariant base == (k - 1) * (DIM2 - 2) && forall i :: 0 <= i < base ==> buffer[i] == field[f[i]]
    {
      for l := 1 to DIM2 - 1
        invariant base == (k - 1) * (DIM2 - 2) + (l - 1) <= |f|
        invariant forall i :: 0 <= i < base ==> buffer[i] == field[f[i]]
      {
        FaceXAt(x, l, k, DIM1, DIM2, DIM3);
        buffer[base] := field[idx3D(x, l, k, DIM1, DIM2)];
        base := base + 1;
      }
      MulDistributes(k - 1, 1, DIM2 - 2);
    }
  }

  method UnpackFaceX<T>(field: array<T>, buffer: array<T>, x: int, DIM1: int, DIM2: int, DIM3: int)
    requires Dims(DIM1, DIM2, DIM3, field.Length) && 0 <= x < DIM1 && field != buffer
    requires buffer.Length == (DIM3 - 2) * (DIM2 - 2)
    modifies field
    ensures InBounds(FaceX(x, DIM1, DIM2, DIM3), field.Length) && |FaceX(x, DIM1, DIM2, DIM3)| == buffer.Length
    ensures field[..] == Scatter(old(field[..]), FaceX(x, DIM1, DIM2, DIM3), buffer[..])
  {
    hide FaceX, idx3D, Dims, Plane;
    ghost var f := FaceX(x, DIM1, DIM2, DIM3);
    FaceXFits(x, DIM1, DIM2, DIM3, field.Length);
    var base := 0;
    for k := 1 to DIM3 - 1
      invariant base == (k - 1) * (DIM2 - 2) && base <= |f|
      invariant field[..] == Scatter(old(field[..]), f[..base], buffer[..base])
    {
      MulDistributes(k - 1, 1, DIM2 - 2);
      for l := 1 to DIM2 - 1
        invariant base == (k - 1) * (DIM2 - 2) + (l - 1) <= |f|
        invariant field[..] == Scatter(old(field[..]), f[..base], buffer[..base])
      {
        FaceXAt(x, l, k, DIM1, DIM2, DIM3);
        assert f[..base + 1][..base] == f[..base] && buffer[..base + 1][..base] == buffer[..base];
        field[idx3D(x, l, k, DIM1, DIM2)] := buffer[base];
        base := base + 1;
      }
    }
    assert f[..base] == f && buffer[..base] == buffer[..];
  }

  lemma FaceYAt(y: int, l: int, k: int, DIM1: int, DIM2: int, DIM3: int)
    requires DIM1 >= 2 && DIM2 >= 2 && DIM3 >= 2 && 1 <= k < DIM3 - 1 && 1 <= l < DIM1 - 1
    ensures var (f, base) := (FaceY(y, DIM1, DIM2, DIM3), (k - 1) * (DIM1 - 2) + (l - 1));
      0 <= base < |f| && f[base] == idx3D(l, y, k, DIM1, DIM2)
  {
    PlaneAt(1, DIM1 - 2, DIM1 * DIM2, DIM3 - 2, k - 1, l - 1);
    Spread(l, y, k, 1, y, 1, DIM1, DIM2);
  }

  method PackFaceY<T>(field: array<T>, buffer: array<T>, y: int, DIM1: int, DIM2: int, DIM3: int)
    requires Dims(DIM1, DIM2, DIM3, field.Length) && 0 <= y < DIM2 && field != buffer
    requires buffer.Length == (DIM3 - 2) * (DIM1 - 2)
    modifies buffer
    ensures InBounds(FaceY(y, DIM1, DIM2, DIM3), field.Length)
      && buffer[..] == Gather(field[..], FaceY(y, DIM1, DIM2, DIM3))
  {
    hide FaceY, idx3D, Dims, Plane;
    ghost var f := FaceY(y, DIM1, DIM2, DIM3);
    FaceYFits(y, DIM1, DIM2, DIM3, field.Length);
    var base := 0;
    for k := 1 to DIM3 - 1
      invariant base == (k - 1) * (DIM1 - 2) && forall i :: 0 <= i < base ==> buffer[i] == field[f[i]]
    {
      for l := 1 to DIM1 - 1
        invariant base == (k - 1) * (DIM1 - 2) + (l - 1) <= |f|
        invariant forall i :: 0 <= i < base ==> buffer[i] == field[f[i]]
      {
        FaceYAt(y, l, k, DIM1, DIM2, DIM3);
        buffer[base] := field[idx3D(l, y, k, DIM1, DIM2)];
        base := base + 1;
      }
      MulDistributes(k - 1, 1, DIM1 - 2);
    }
  }

  method UnpackFaceY<T>(field: array<T>, buffer: array<T>, y: int, DIM1: int, DIM2: int, DIM3: int)
    requires Dims(DIM1, DIM2, DIM3, field.Length) && 0 <= y < DIM2 && field != buffer
    requires buffer.Length == (DIM3 - 2) * (DIM1 - 2)
    modifies field
    ensures InBounds(FaceY(y, DIM1, DIM2, DIM3), field.Length) && |FaceY(y, DIM1, DIM2, DIM3)| == buffer.Length
    ensures field[..] == Scatter(old(field[..]), FaceY(y, DIM1, DIM2, DIM3), buffer[..])
  {
    hide FaceY, idx3D, Dims, Plane;
    ghost var f := FaceY(y, DIM1, DIM2, DIM3);
    FaceYFits(y, DIM1, DIM2, DIM3, field.Length);
    var base := 0;
    for k := 1 to DIM3 - 1
      invariant base == (k - 1) * (DIM1 - 2) && base <= |f|
      invariant field[..] == Scatter(old(field[..]), f[..base], buffer[..base])
    {
      MulDistributes(k - 1, 1, DIM1 - 2);
      for l := 1 to DIM1 - 1
        invariant base == (k - 1) * (DIM1 - 2) + (l - 1) <= |f|
        invariant field[..] == Scatter(old(field[..]), f[..base], buffer[..base])
      {
        FaceYAt(y, l, k, DIM1, DIM2, DIM3);
        assert f[..base + 1][..base] == f[..base] && buffer[..base + 1][..base] == buffer[..base];
        field[idx3D(l, y, k, DIM1, DIM2)] := buffer[base];
        base := base + 1;
      }
    }
    assert f[..base] == f && buffer[..base] == buffer[..];
  }

  lemma FaceZAt(z: int, l: int, k: int, DIM1: int, DIM2: int, DIM3: int)
    requires DIM1 >= 2 && DIM2 >= 2 && DIM3 >= 2 && 1 <= k < DIM2 - 1 && 1 <= l < DIM1 - 1
    ensures var (f, base) := (FaceZ(z, DIM1, DIM2, DIM3), (k - 1) * (DIM1 - 2) + (l - 1));
      0 <= base < |f| && f[base] == idx3D(l, k, z, DIM1, DIM2)
  {
    PlaneAt(1, DIM1 - 2, DIM1, DIM2 - 2, k - 1, l - 1);
    Spread(l, k, z, 1, 1, z, DIM1, DIM2);
  }

  method PackFaceZ<T>(field: array<T>, buffer: array<T>, z: int, DIM1: int, DIM2: int, DIM3: int)
    requires Dims(DIM1, DIM2, DIM3, field.Length) && 0 <= z < DIM3 && field != buffer
    requires buffer.Length == (DIM2 - 2) * (DIM1 - 2)
    modifies buffer
    ensures InBounds(FaceZ(z, DIM1, DIM2, DIM3), field.Length)
      && buffer[..] == Gather(field[..], FaceZ(z, DIM1, DIM2, DIM3))
  {
    hide FaceZ, idx3D, Dims, Plane;
    ghost var f := FaceZ(z, DIM1, DIM2, DIM3);
    FaceZFits(z, DIM1, DIM2, DIM3, field.Length);
    var base := 0;
    for k := 1 to DIM2 - 1
      invariant base == (k - 1) * (DIM1 - 2) && forall i :: 0 <= i < base ==> buffer[i] == field[f[i]]
    {
      for l := 1 to DIM1 - 1
        invariant base == (k - 1) * (DIM1 - 2) + (l - 1) <= |f|
        invariant forall i :: 0 <= i < base ==> buffer[i] == field[f[i]]
      {
        FaceZAt(z, l, k, DIM1, DIM2, DIM3);
        buffer[base] := field[idx3D(l, k, z, DIM1, DIM2)];
        base := base + 1;
      }
      MulDistributes(k - 1, 1, DIM1 - 2);
    }
  }

  method UnpackFaceZ<T>(field: array<T>, buffer: array<T>, z: int, DIM1: int, DIM2: int, DIM3: int)
    requires Dims(DIM1, DIM2, DIM3, field.Length) && 0 <= z < DIM3 && field != buffer
    requires buffer.Length == (DIM2 - 2) * (DIM1 - 2)
    modifies field
    ensures InBounds(FaceZ(z, DIM1, DIM2, DIM3), field.Length) && |FaceZ(z, DIM1, DIM2, DIM3)| == buffer.Length
    ensures field[..] == Scatter(old(field[..]), FaceZ(z, DIM1, DIM2, DIM3), buffer[..])
  {
    hide FaceZ, idx3D, Dims, Plane;
    ghost var f := FaceZ(z, DIM1, DIM2, DIM3);
    FaceZFits(z, DIM1, DIM2, DIM3, field.Length);
    var base := 0;
    for k := 1 to DIM2 - 1
      invariant base == (k - 1) * (DIM1 - 2) && base <= |f|
      invariant field[..] == Scatter(old(field[..]), f[..base], buffer[..base])
    {
      MulDistributes(k - 1, 1, DIM1 - 2);
      for l := 1 to DIM1 - 1
        invariant base == (k - 1) * (DIM1 - 2) + (l - 1) <= |f|
        invariant field[..] == Scatter(old(field[..]), f[..base], buffer[..base])
      {
        FaceZAt(z, l, k, DIM1, DIM2, DIM3);
        assert f[..base + 1][..base] == f[..base] && buffer[..base + 1][..base] == buffer[..base];
        field[idx3D(l, k, z, DIM1, DIM2)] := buffer[base];
        base := base + 1;
      }
    }
    assert f[..base] == f && buffer[..base] == buffer[..];
  }

  /** Where two points of the box lie relative to each other. */
  lemma Spread(x: int, y: int, z: int, x0: int, y0: int, z0: int, DIM1: int, DIM2: int)
    ensures idx3D(x, y, z, DIM1, DIM2)
         == idx3D(x0, y0, z0, DIM1, DIM2) + (x - x0) + (y - y0) * DIM1 + (z - z0) * (DIM1 * DIM2)
  {
    MulDistributes(y, z * DIM2, DIM1);
    MulDistributes(y0, z0 * DIM2, DIM1);
    MulDistributes(y, y0, DIM1);
    MulDistributes(z, z0, DIM2 * DIM1);
    MulAssoc(z, DIM2, DIM1);
    MulAssoc(z0, DIM2, DIM1);
  }

  /** Unpacking a face restores what was packed from it, and packing it returns what was unpacked, for
      all dimensions and contents. */
  lemma FacesRoundTrip<T>(a: seq<T>, values: seq<T>, x: int, y: int, z: int, DIM1: int, DIM2: int, DIM3: int,
                          f: seq<int>)
    requires Dims(DIM1, DIM2, DIM3, |a|) && 0 <= x < DIM1 && 0 <= y < DIM2 && 0 <= z < DIM3
    requires f == FaceX(x, DIM1, DIM2, DIM3) || f == FaceY(y, DIM1, DIM2, DIM3) || f == FaceZ(z, DIM1, DIM2, DIM3)
    requires |values| == |f|
    ensures InBounds(f, |a|)
    ensures Gather(Scatter(a, f, values), f) == values && Scatter(a, f, Gather(a, f)) == a
  {
    FaceXFits(x, DIM1, DIM2, DIM3, |a|);
    FaceYFits(y, DIM1, DIM2, DIM3, |a|);
    FaceZFits(z, DIM1, DIM2, DIM3, |a|);
    GatherScatter(a, f, values);
  }

  /** WHAT A FACE IS, and in which order: the inner points of the plane, the first of its two dimensions innermost. */
  lemma FacesInOrder(x: int, y: int, z: int, k: int, l: int, DIM1: int, DIM2: int, DIM3: int)
    requires DIM1 >= 2 && DIM2 >= 2 && DIM3 >= 2
    ensures |FaceX(x, DIM1, DIM2, DIM3)| == (DIM3 - 2) * (DIM2 - 2)
    ensures 1 <= l <= DIM2 - 2 && 1 <= k <= DIM3 - 2 ==>
      var i := (k - 1) * (DIM2 - 2) + (l - 1);
      0 <= i < (DIM3 - 2) * (DIM2 - 2) && FaceX(x, DIM1, DIM2, DIM3)[i] == x + DIM1 * (l + k * DIM2)
    ensures |FaceY(y, DIM1, DIM2, DIM3)| == (DIM3 - 2) * (DIM1 - 2)
    ensures 1 <= l <= DIM1 - 2 && 1 <= k <= DIM3 - 2 ==>
      var i := (k - 1) * (DIM1 - 2) + (l - 1);
      0 <= i < (DIM3 - 2) * (DIM1 - 2) && FaceY(y, DIM1, DIM2, DIM3)[i] == l + DIM1 * (y + k * DIM2)
    ensures |FaceZ(z, DIM1, DIM2, DIM3)| == (DIM2 - 2) * (DIM1 - 2)
    ensures 1 <= l <= DIM1 - 2 && 1 <= k <= DIM2 - 2 ==>
      var i := (k - 1) * (DIM1 - 2) + (l - 1);
      0 <= i < (DIM2 - 2) * (DIM1 - 2) && FaceZ(z, DIM1, DIM2, DIM3)[i] == l + DIM1 * (k + z * DIM2)
  {
    hide FaceX, FaceY, FaceZ;
    FaceLengths(x, y, z, DIM1, DIM2, DIM3);
    if 1 <= l <= DIM2 - 2 && 1 <= k <= DIM3 - 2 { FaceXAt(x, l, k, DIM1, DIM2, DIM3); }
    if 1 <= l <= DIM1 - 2 && 1 <= k <= DIM3 - 2 { FaceYAt(y, l, k, DIM1, DIM2, DIM3); }
    if 1 <= l <= DIM1 - 2 && 1 <= k <= DIM2 - 2 { FaceZAt(z, l, k, DIM1, DIM2, DIM3); }
  }

  lemma FaceLengths(x: int, y: int, z: int, DIM1: int, DIM2: int, DIM3: int)
    requires DIM1 >= 2 && DIM2 >= 2 && DIM3 >= 2
    ensures |FaceX(x, DIM1, DIM2, DIM3)| == (DIM3 - 2) * (DIM2 - 2)
    ensures |FaceY(y, DIM1, DIM2, DIM3)| == (DIM3 - 2) * (DIM1 - 2)
    ensures |FaceZ(z, DIM1, DIM2, DIM3)| == (DIM2 - 2) * (DIM1 - 2)
  {
    PlaneLength(DIM1, DIM2 - 2, DIM1 * DIM2, DIM3 - 2);
    PlaneLength(1, DIM1 - 2, DIM1 * DIM2, DIM3 - 2);
    PlaneLength(1, DIM1 - 2, DIM1, DIM2 - 2);
  }

  lemma PlaneLength(step: int, n: int, pitch: int, m: int)
    requires n >= 0 && m >= 0
    ensures |Plane(step, n, pitch, m)| == m * n
  {
    RepLength([0], step, n);
    RepLength(Row(step, n), pitch, m);
  }
}
