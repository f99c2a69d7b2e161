/** The WRF halo exchange: hand-written loops over sub-boxes of many two-, three- and four-dimensional
    arrays, against the struct of vectors and hvectors built for the same boxes. */
module Wrf {
  import opened Arithmetic
  import opened Datatypes
  import opened Typemap
  import opened Bounds
  import opened Elements

  function idx2D(x: int, y: int, DIM1: int): int { x + DIM1 * y }
  function idx3D(x: int, y: int, z: int, DIM1: int, DIM2: int): int { x + DIM1 * (y + z * DIM2) }
  function idx4D(x: int, y: int, z: int, t: int, d: Dims): int {
    x + d.dim1 * (y + d.dim2 * (z + d.dim3 * t))
  }

  datatype Dims = Dims(dim1: int, dim2: int, dim3: int)

  /** The loops over arrays of fewer dimensions index with fewer arguments. */
  lemma LowerDimensions(x: int, y: int, z: int, d: Dims)
    ensures idx2D(x, y, d.dim1) == idx4D(x, y, 0, 0, d)
    ensures idx3D(x, y, z, d.dim1, d.dim2) == idx4D(x, y, z, 0, d)
  {
    assert d.dim3 * 0 == 0 && d.dim2 * 0 == 0;
  }

  // ----- index lists of boxes -----

  function Area(n1: int, n2: int, d: Dims): seq<int> { Plane(1, n1, d.dim1, n2) }
  function Box(n1: int, n2: int, n3: int, d: Dims): seq<int> { Rep(Area(n1, n2, d), d.dim1 * d.dim2, n3) }
  function Hyper(n1: int, n2: int, n3: int, n4: int, d: Dims): seq<int> {
    Rep(Box(n1, n2, n3, d), d.dim1 * d.dim2 * d.dim3, n4)
  }

  lemma Along(x: int, y: int, z: int, t: int, k: int, d: Dims)
    ensures idx4D(x + k, y, z, t, d) == idx4D(x, y, z, t, d) + k
    ensures idx4D(x, y + k, z, t, d) == idx4D(x, y, z, t, d) + k * d.dim1
    ensures idx4D(x, y, z + k, t, d) == idx4D(x, y, z, t, d) + k * (d.dim1 * d.dim2)
    ensures idx4D(x, y, z, t + k, d) == idx4D(x, y, z, t, d) + k * (d.dim1 * d.dim2 * d.dim3)
  {
    var u := z + d.dim3 * t;
    var v := y + d.dim2 * u;
    MulDistributes(v, k, d.dim1);
    MulDistributes(u, k, d.dim2);
    MulDistributes(v, k * d.dim2, d.dim1);
    MulAssoc(k, d.dim2, d.dim1);
    MulDistributes(t, k, d.dim3);
    MulDistributes(u, k * d.dim3, d.dim2);
    MulDistributes(v, k * d.dim3 * d.dim2, d.dim1);
    MulAssoc(k, d.dim3, d.dim2);
    MulAssoc(k, d.dim3 * d.dim2, d.dim1);
    assert d.dim3 * d.dim2 * d.dim1 == d.dim1 * d.dim2 * d.dim3 by {
      MulAssoc(d.dim1, d.dim2, d.dim3);
      MulAssoc(d.dim3, d.dim2, d.dim1);
      assert d.dim3 * (d.dim2 * d.dim1) == (d.dim2 * d.dim1) * d.dim3;
    }
  }

  // ----- one more block -----

  /** s with `values` from position `at` on. */
  function Put<T>(s: seq<T>, at: nat, values: seq<T>): (r: seq<T>)
    requires at + |values| <= |s|
    ensures |r| == |s|
  {
    s[..at] + values + s[at + |values|..]
  }

  /** Block k of the n blocks of a repetition is in bounds if all are, and fits behind the first k. */
  lemma SubBlock(tm: seq<int>, step: int, n: int, first: int, k: int, len: int)
    requires 0 <= k < n && InBounds(Shift(Rep(tm, step, n), first), len)
    ensures InBounds(Shift(tm, first + k * step), len) && InBounds(Shift(Rep(tm, step, k), first), len)
    ensures InBounds(Shift(Rep(tm, step, k + 1), first), len)
    ensures |Rep(tm, step, n)| == n * |tm| && |Rep(tm, step, k)| == k * |tm| && (k + 1) * |tm| <= n * |tm|
    ensures k * |tm| + |tm| == (k + 1) * |tm|
  {
    hide Rep;
    RepSplit(tm, step, k + 1, n - (k + 1));
    ShiftConcat(Rep(tm, step, k + 1), Shift(Rep(tm, step, n - (k + 1)), (k + 1) * step), first);
    var part := Shift(Rep(tm, step, k + 1), first);
    assert forall i :: 0 <= i < |part| ==> part[i] == Shift(Rep(tm, step, n), first)[i];
    ShiftedAppend(tm, step, k, first);
    var before := Shift(Rep(tm, step, k), first);
    assert forall i :: 0 <= i < |before| ==> before[i] == part[i];
    var last := Shift(tm, first + k * step);
    assert forall i :: 0 <= i < |last| ==> last[i] == part[|before| + i];
    RepLength(tm, step, n);
    RepLength(tm, step, k);
    MulDistributes(k, 1, |tm|);
    MulNonNegative(n - (k + 1), |tm|);
    MulDistributes(n, k + 1, |tm|);
  }

  lemma GatherConcat<T>(a: seq<T>, x: seq<int>, y: seq<int>)
    requires InBounds(x, |a|) && InBounds(y, |a|)
    ensures InBounds(x + y, |a|) && Gather(a, x + y) == Gather(a, x) + Gather(a, y)
  {}

  lemma PackedOneMore<T>(s: seq<T>, at: nat, a: seq<T>, tm: seq<int>, step: int, k: nat, first: int)
    requires InBounds(Shift(Rep(tm, step, k), first), |a|) && InBounds(Shift(tm, first + k * step), |a|)
    requires at + |Rep(tm, step, k)| + |tm| <= |s|
    ensures InBounds(Shift(Rep(tm, step, k + 1), first), |a|)
    ensures |Rep(tm, step, k + 1)| == |Rep(tm, step, k)| + |tm|
    ensures Put(Put(s, at, Gather(a, Shift(Rep(tm, step, k), first))), at + |Rep(tm, step, k)|,
                Gather(a, Shift(tm, first + k * step)))
         == Put(s, at, Gather(a, Shift(Rep(tm, step, k + 1), first)))
  {
    hide Rep;
    ShiftedAppend(tm, step, k, first);
    GatherConcat(a, Shift(Rep(tm, step, k), first), Shift(tm, first + k * step));
    assert |Shift(Rep(tm, step, k + 1), first)| == |Rep(tm, step, k + 1)|;
  }

  lemma {:induction false} ScatterConcat<T>(a: seq<T>, x: seq<int>, y: seq<int>, u: seq<T>, v: seq<T>)
    requires InBounds(x, |a|) && InBounds(y, |a|) && |x| == |u| && |y| == |v|
    ensures InBounds(x + y, |a|) && Scatter(Scatter(a, x, u), y, v) == Scatter(a, x + y, u + v)
    decreases |y|
  {
    if y == [] {
      assert x + y == x && u + v == u;
    } else {
      var n := |y| - 1;
      ScatterConcat(a, x, y[..n], u, v[..n]);
      assert (x + y)[..|x| + n] == x + y[..n] && (u + v)[..|u| + n] == u + v[..n];
    }
  }

  lemma UnpackedOneMore<T>(a: seq<T>, tm: seq<int>, step: int, k: nat, first: int, s: seq<T>, at: nat)
    requires InBounds(Shift(Rep(tm, step, k), first), |a|) && InBounds(Shift(tm, first + k * step), |a|)
    requires at + |Rep(tm, step, k)| + |tm| <= |s|
    ensures InBounds(Shift(Rep(tm, step, k + 1), first), |a|)
    ensures |Rep(tm, step, k + 1)| == |Rep(tm, step, k)| + |tm|
    ensures var n := |Rep(tm, step, k)|;
      Scatter(Scatter(a, Shift(Rep(tm, step, k), first), s[at..at + n]), Shift(tm, first + k * step),
              s[at + n..at + n + |tm|])
      == Scatter(a, Shift(Rep(tm, step, k + 1), first), s[at..at + n + |tm|])
  {
    hide Rep, Scatter;
    ShiftedAppend(tm, step, k, first);
    var n := |Rep(tm, step, k)|;
    ScatterConcat(a, Shift(Rep(tm, step, k), first), Shift(tm, first + k * step), s[at..at + n],
                  s[at + n..at + n + |tm|]);
    assert s[at..at + n] + s[at + n..at + n + |tm|] == s[at..at + n + |tm|];
    assert |Shift(Rep(tm, step, k + 1), first)| == |Rep(tm, step, k + 1)|;
  }

  lemma NothingYet<T>(a: seq<T>, tm: seq<int>, step: int, first: int, s: seq<T>, at: nat)
    requires at <= |s|
    ensures InBounds(Shift(Rep(tm, step, 0), first), |a|) && |Rep(tm, step, 0)| == 0
    ensures Put(s, at, Gather(a, Shift(Rep(tm, step, 0), first))) == s
    ensures Scatter(a, Shift(Rep(tm, step, 0), first), s[at..at]) == a
  {}

  lemma OneElementMoved<T>(a: seq<T>, i: int, s: seq<T>, at: nat)
    requires InBounds(Shift([0], i), |a|) && at < |s|
    ensures 0 <= i < |a| && |[0]| == 1
    ensures Put(s, at, Gather(a, Shift([0], i))) == s[at := a[i]]
    ensures Scatter(a, Shift([0], i), s[at..at + 1]) == a[i := s[at]]
  {
    hide *;
    ShiftOne(i);
    SingleInBounds(i, |a|);
    GatherOne(a, i);
    ScatterOne(a, i, s[at]);
    PutOne(s, at, a[i]);
    assert s[at..at + 1] == [s[at]];
  }

  lemma ShiftOne(i: int)
    ensures Shift([0], i) == [i]
  {}

  lemma PutOne<T>(s: seq<T>, at: nat, v: T)
    requires at < |s|
    ensures Put(s, at, [v]) == s[at := v]
  {}

  lemma SingleInBounds(i: int, n: int)
    requires InBounds([i], n)
    ensures 0 <= i < n
  {
    assert [i][0] == i;
  }

  lemma GatherOne<T>(a: seq<T>, i: int)
    requires InBounds([i], |a|) && 0 <= i < |a|
    ensures Gather(a, [i]) == [a[i]]
  {}

  lemma ScatterOne<T>(a: seq<T>, i: int, v: T)
    requires InBounds([i], |a|) && 0 <= i < |a|
    ensures Scatter(a, [i], [v]) == a[i := v]
  {
    assert [i][..0] == [] && [v][..0] == [];
    assert Scatter(a, [], []) == a;
  }

  // ----- the loops, innermost first -----

  method PackLine<T>(a: array<T>, buffer: array<T>, counter: nat, xs: int, xe: int, y: int, z: int, t: int, d: Dims)
    returns (counter': nat)
    requires a != buffer && xs <= xe + 1
    requires InBounds(Shift(Row(1, xe + 1 - xs), idx4D(xs, y, z, t, d)), a.Length)
    requires counter + |Row(1, xe + 1 - xs)| <= buffer.Length
    modifies buffer
    ensures counter' == counter + |Row(1, xe + 1 - xs)|
    ensures buffer[..] == Put(old(buffer[..]), counter,
                              Gather(a[..], Shift(Row(1, xe + 1 - xs), idx4D(xs, y, z, t, d))))
  {
    hide Rep, Put, Scatter, InBounds, idx4D;
    ghost var first, s, block, step := idx4D(xs, y, z, t, d), buffer[..], [0], 1;
    counter' := counter;
    NothingYet(a[..], block, step, first, s, counter);
    for x := xs to xe + 1
      invariant InBounds(Shift(Rep(block, step, x - xs), first), a.Length)
      invariant counter' == counter + |Rep(block, step, x - xs)| <= buffer.Length
      invariant buffer[..] == Put(s, counter, Gather(a[..], Shift(Rep(block, step, x - xs), first)))
    {
      SubBlock(block, step, xe + 1 - xs, first, x - xs, a.Length);
      Along(xs, y, z, t, x - xs, d);
      PackedOneMore(s, counter, a[..], block, step, x - xs, first);
      OneElementMoved(a[..], idx4D(x, y, z, t, d), buffer[..], counter');
      buffer[counter'] := a[idx4D(x, y, z, t, d)];
      counter' := counter' + 1;
    }
  }

  method PackArea<T>(a: array<T>, buffer: array<T>, counter: nat, xs: int, xe: int, ys: int, ye: int, z: int, t: int,
                     d: Dims)
    returns (counter': nat)
    requires a != buffer && xs <= xe + 1 && ys <= ye + 1
    requires InBounds(Shift(Area(xe + 1 - xs, ye + 1 - ys, d), idx4D(xs, ys, z, t, d)), a.Length)
    requires counter + |Area(xe + 1 - xs, ye + 1 - ys, d)| <= buffer.Length
    modifies buffer
    ensures counter' == counter + |Area(xe + 1 - xs, ye + 1 - ys, d)|
    ensures buffer[..] == Put(old(buffer[..]), counter,
                              Gather(a[..], Shift(Area(xe + 1 - xs, ye + 1 - ys, d), idx4D(xs, ys, z, t, d))))
    ensures z == 0 && t == 0 ==>
      buffer[..] == Put(old(buffer[..]), counter,
                        Gather(a[..], Shift(Area(xe + 1 - xs, ye + 1 - ys, d), idx2D(xs, ys, d.dim1))))
  {
    hide Rep, Put, Scatter, InBounds, idx4D;
    LowerDimensions(xs, ys, z, d);
    ghost var first, s, block, step := idx4D(xs, ys, z, t, d), buffer[..], Row(1, xe + 1 - xs), d.dim1;
    counter' := counter;
    NothingYet(a[..], block, step, first, s, counter);
    for y := ys to ye + 1
      invariant InBounds(Shift(Rep(block, step, y - ys), first), a.Length)
      invariant counter' == counter + |Rep(block, step, y - ys)| <= buffer.Length
      invariant buffer[..] == Put(s, counter, Gather(a[..], Shift(Rep(block, step, y - ys), first)))
    {
      SubBlock(block, step, ye + 1 - ys, first, y - ys, a.Length);
      Along(xs, ys, z, t, y - ys, d);
      PackedOneMore(s, counter, a[..], block, step, y - ys, first);
      counter' := PackLine(a, buffer, counter', xs, xe, y, z, t, d);
    }
  }

  method PackBox<T>(a: array<T>, buffer: array<T>, counter: nat, xs: int, xe: int, ys: int, ye: int, zs: int, ze: int,
                    t: int, d: Dims)
    returns (counter': nat)
    requires a != buffer && xs <= xe + 1 && ys <= ye + 1 && zs <= ze + 1
    requires InBounds(Shift(Box(xe + 1 - xs, ye + 1 - ys, ze + 1 - zs, d), idx4D(xs, ys, zs, t, d)), a.Length)
    requires counter + |Box(xe + 1 - xs, ye + 1 - ys, ze + 1 - zs, d)| <= buffer.Length
    modifies buffer
    ensures counter' == counter + |Box(xe + 1 - xs, ye + 1 - ys, ze + 1 - zs, d)|
    ensures buffer[..] == Put(old(buffer[..]), counter,
                              Gather(a[..], Shift(Box(xe + 1 - xs, ye + 1 - ys, ze + 1 - zs, d),
                                                  idx4D(xs, ys, zs, t, d))))
    ensures t == 0 ==>
      buffer[..] == Put(old(buffer[..]), counter,
                        Gather(a[..], Shift(Box(xe + 1 - xs, ye + 1 - ys, ze + 1 - zs, d),
                                            idx3D(xs, ys, zs, d.dim1, d.dim2))))
  {
    hide Rep, Put, Scatter, InBounds, idx4D;
    LowerDimensions(xs, ys, zs, d);
    ghost var first, s, block, step := idx4D(xs, ys, zs, t, d), buffer[..], Area(xe + 1 - xs, ye + 1 - ys, d),
        d.dim1 * d.dim2;
    counter' := counter;
    NothingYet(a[..], block, step, first, s, counter);
    for z := zs to ze + 1
      invariant InBounds(Shift(Rep(block, step, z - zs), first), a.Length)
      invariant counter' == counter + |Rep(block, step, z - zs)| <= buffer.Length
      invariant buffer[..] == Put(s, counter, Gather(a[..], Shift(Rep(block, step, z - zs), first)))
    {
      SubBlock(block, step, ze + 1 - zs, first, z - zs, a.Length);
      Along(xs, ys, zs, t, z - zs, d);
      PackedOneMore(s, counter, a[..], block, step, z - zs, first);
      counter' := PackArea(a, buffer, counter', xs, xe, ys, ye, z, t, d);
    }
  }

  method PackHyper<T>(a: array<T>, buffer: array<T>, counter: nat, xs: int, xe: int, ys: int, ye: int, zs: int,
                      ze: int, ts: int, te: int, d: Dims)
    returns (counter': nat)
    requires a != buffer && xs <= xe + 1 && ys <= ye + 1 && zs <= ze + 1 && ts <= te
    requires InBounds(Shift(Hyper(xe + 1 - xs, ye + 1 - ys, ze + 1 - zs, te - ts, d), idx4D(xs, ys, zs, ts, d)),
                      a.Length)
    requires counter + |Hyper(xe + 1 - xs, ye + 1 - ys, ze + 1 - zs, te - ts, d)| <= buffer.Length
    modifies buffer
    ensures counter' == counter + |Hyper(xe + 1 - xs, ye + 1 - ys, ze + 1 - zs, te - ts, d)|
    ensures buffer[..] == Put(old(buffer[..]), counter,
                              Gather(a[..], Shift(Hyper(xe + 1 - xs, ye + 1 - ys, ze + 1 - zs, te - ts, d),
                                                  idx4D(xs, ys, zs, ts, d))))
  {
    hide Rep, Put, Scatter, InBounds, idx4D;
    ghost var first, s, block, step := idx4D(xs, ys, zs, ts, d), buffer[..],
        Box(xe + 1 - xs, ye + 1 - ys, ze + 1 - zs, d), d.dim1 * d.dim2 * d.dim3;
    counter' := counter;
    NothingYet(a[..], block, step, first, s, counter);
    for t := ts to te
      invariant InBounds(Shift(Rep(block, step, t - ts), first), a.Length)
      invariant counter' == counter + |Rep(block, step, t - ts)| <= buffer.Length
      invariant buffer[..] == Put(s, counter, Gather(a[..], Shift(Rep(block, step, t - ts), first)))
    {
      SubBlock(block, step, te - ts, first, t - ts, a.Length);
      Along(xs, ys, zs, ts, t - ts, d);
      PackedOneMore(s, counter, a[..], block, step, t - ts, first);
      counter' := PackBox(a, buffer, counter', xs, xe, ys, ye, zs, ze, t, d);
    }
  }

  method UnpackLine<T>(a: array<T>, buffer: array<T>, counter: nat, xs: int, xe: int, y: int, z: int, t: int, d: Dims)
    returns (counter': nat)
    requires a != buffer && xs <= xe + 1
    requires InBounds(Shift(Row(1, xe + 1 - xs), idx4D(xs, y, z, t, d)), a.Length)
    requires counter + |Row(1, xe + 1 - xs)| <= buffer.Length
    modifies a
    ensures counter' == counter + |Row(1, xe + 1 - xs)|
    ensures a[..] == Scatter(old(a[..]), Shift(Row(1, xe + 1 - xs), idx4D(xs, y, z, t, d)), buffer[counter..counter'])
  {
    hide Rep, Put, Scatter, InBounds, idx4D;
    ghost var first, s, block, step := idx4D(xs, y, z, t, d), a[..], [0], 1;
    counter' := counter;
    NothingYet(a[..], block, step, first, buffer[..], counter);
    for x := xs to xe + 1
      invariant InBounds(Shift(Rep(block, step, x - xs), first), a.Length)
      invariant counter' == counter + |Rep(block, step, x - xs)| <= buffer.Length
      invariant a[..] == Scatter(s, Shift(Rep(block, step, x - xs), first), buffer[counter..counter'])
    {
      SubBlock(block, step, xe + 1 - xs, first, x - xs, a.Length);
      Along(xs, y, z, t, x - xs, d);
      UnpackedOneMore(s, block, step, x - xs, first, buffer[..], counter);
      OneElementMoved(a[..], idx4D(x, y, z, t, d), buffer[..], counter');
      a[idx4D(x, y, z, t, d)] := buffer[counter'];
      counter' := counter' + 1;
    }
  }

  method UnpackArea<T>(a: array<T>, buffer: array<T>, counter: nat, xs: int, xe: int, ys: int, ye: int, z: int,
                       t: int, d: Dims)
    returns (counter': nat)
    requires a != buffer && xs <= xe + 1 && ys <= ye + 1
    requires InBounds(Shift(Area(xe + 1 - xs, ye + 1 - ys, d), idx4D(xs, ys, z, t, d)), a.Length)
    requires counter + |Area(xe + 1 - xs, ye + 1 - ys, d)| <= buffer.Length
    modifies a
    ensures counter' == counter + |Area(xe + 1 - xs, ye + 1 - ys, d)|
    ensures a[..] == Scatter(old(a[..]), Shift(Area(xe + 1 - xs, ye + 1 - ys, d), idx4D(xs, ys, z, t, d)),
                             buffer[counter..counter'])
    ensures z == 0 && t == 0 ==>
      a[..] == Scatter(old(a[..]), Shift(Area(xe + 1 - xs, ye + 1 - ys, d), idx2D(xs, ys, d.dim1)),
                       buffer[counter..counter'])
  {
    hide Rep, Put, Scatter, InBounds, idx4D;
    LowerDimensions(xs, ys, z, d);
    ghost var first, s, block, step := idx4D(xs, ys, z, t, d), a[..], Row(1, xe + 1 - xs), d.dim1;
    counter' := counter;
    NothingYet(a[..], block, step, first, buffer[..], counter);
    for y := ys to ye + 1
      invariant InBounds(Shift(Rep(block, step, y - ys), first), a.Length)
      invariant counter' == counter + |Rep(block, step, y - ys)| <= buffer.Length
      invariant a[..] == Scatter(s, Shift(Rep(block, step, y - ys), first), buffer[counter..counter'])
    {
      SubBlock(block, step, ye + 1 - ys, first, y - ys, a.Length);
      Along(xs, ys, z, t, y - ys, d);
      UnpackedOneMore(s, block, step, y - ys, first, buffer[..], counter);
      counter' := UnpackLine(a, buffer, counter', xs, xe, y, z, t, d);
    }
  }

  method UnpackBox<T>(a: array<T>, buffer: array<T>, counter: nat, xs: int, xe: int, ys: int, ye: int, zs: int,
                      ze: int, t: int, d: Dims)
    returns (counter': nat)
    requires a != buffer && xs <= xe + 1 && ys <= ye + 1 && zs <= ze + 1
    requires InBounds(Shift(Box(xe + 1 - xs, ye + 1 - ys, ze + 1 - zs, d), idx4D(xs, ys, zs, t, d)), a.Length)
    requires counter + |Box(xe + 1 - xs, ye + 1 - ys, ze + 1 - zs, d)| <= buffer.Length
    modifies a
    ensures counter' == counter + |Box(xe + 1 - xs, ye + 1 - ys, ze + 1 - zs, d)|
    ensures a[..] == Scatter(old(a[..]), Shift(Box(xe + 1 - xs, ye + 1 - ys, ze + 1 - zs, d),
                                               idx4D(xs, ys, zs, t, d)), buffer[counter..counter'])
    ensures t == 0 ==>
      a[..] == Scatter(old(a[..]), Shift(Box(xe + 1 - xs, ye + 1 - ys, ze + 1 - zs, d),
                                         idx3D(xs, ys, zs, d.dim1, d.dim2)), buffer[counter..counter'])
  {
    hide Rep, Put, Scatter, InBounds, idx4D;
    LowerDimensions(xs, ys, zs, d);
    ghost var first, s, block, step := idx4D(xs, ys, zs, t, d), a[..], Area(xe + 1 - xs, ye + 1 - ys, d),
        d.dim1 * d.dim2;
    counter' := counter;
    NothingYet(a[..], block, step, first, buffer[..], counter);
    for z := zs to ze + 1
      invariant InBounds(Shift(Rep(block, step, z - zs), first), a.Length)
      invariant counter' == counter + |Rep(block, step, z - zs)| <= buffer.Length
      invariant a[..] == Scatter(s, Shift(Rep(block, step, z - zs), first), buffer[counter..counter'])
    {
      SubBlock(block, step, ze + 1 - zs, first, z - zs, a.Length);
      Along(xs, ys, zs, t, z - zs, d);
      UnpackedOneMore(s, block, step, z - zs, first, buffer[..], counter);
      counter' := UnpackArea(a, buffer, counter', xs, xe, ys, ye, z, t, d);
    }
  }

  method UnpackHyper<T>(a: array<T>, buffer: array<T>, counter: nat, xs: int, xe: int, ys: int, ye: int, zs: int,
                        ze: int, ts: int, te: int, d: Dims)
    returns (counter': nat)
    requires a != buffer && xs <= xe + 1 && ys <= ye + 1 && zs <= ze + 1 && ts <= te
    requires InBounds(Shift(Hyper(xe + 1 - xs, ye + 1 - ys, ze + 1 - zs, te - ts, d), idx4D(xs, ys, zs, ts, d)),
                      a.Length)
    requires counter + |Hyper(xe + 1 - xs, ye + 1 - ys, ze + 1 - zs, te - ts, d)| <= buffer.Length
    modifies a
    ensures counter' == counter + |Hyper(xe + 1 - xs, ye + 1 - ys, ze + 1 - zs, te - ts, d)|
    ensures a[..] == Scatter(old(a[..]), Shift(Hyper(xe + 1 - xs, ye + 1 - ys, ze + 1 - zs, te - ts, d),
                                               idx4D(xs, ys, zs, ts, d)), buffer[counter..counter'])
  {
    hide Rep, Put, Scatter, InBounds, idx4D;
    ghost var first, s, block, step := idx4D(xs, ys, zs, ts, d), a[..], Box(xe + 1 - xs, ye + 1 - ys, ze + 1 - zs, d),
        d.dim1 * d.dim2 * d.dim3;
    counter' := counter;
    NothingYet(a[..], block, step, first, buffer[..], counter);
    for t := ts to te
      invariant InBounds(Shift(Rep(block, step, t - ts), first), a.Length)
      invariant counter' == counter + |Rep(block, step, t - ts)| <= buffer.Length
      invariant a[..] == Scatter(s, Shift(Rep(block, step, t - ts), first), buffer[counter..counter'])
    {
      SubBlock(block, step, te - ts, first, t - ts, a.Length);
      Along(xs, ys, zs, ts, t - ts, d);
      UnpackedOneMore(s, block, step, t - ts, first, buffer[..], counter);
      counter' := UnpackBox(a, buffer, counter', xs, xe, ys, ye, zs, ze, t, d);
    }
  }
}
