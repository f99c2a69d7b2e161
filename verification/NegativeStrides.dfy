/** The bounds that the vector constructors store for strides of zero or less, against MPI's, and those of types of
    nothing. */
module NegativeStrides {
  import opened Arithmetic
  import opened Datatypes
  import opened Typemap
  import opened Wellformed
  import opened Bounds
  import opened Mpi
  import opened MpiBounds

  lemma RepDown(xs: seq<int>, step: int, n: int, lo: int, hi: int)
    requires IsLeast(xs, lo) && IsGreatest(xs, hi) && step <= 0 && n >= 1
    ensures IsLeast(Rep(xs, step, n), lo + step * (n - 1)) && IsGreatest(Rep(xs, step, n), hi)
  {
    var i :| 0 <= i < |xs| && xs[i] == lo;
    var j :| 0 <= j < |xs| && xs[j] == hi;
    RepAt(xs, step, n, n - 1, i);
    RepAt(xs, step, n, 0, j);
    var last := step * (n - 1);
    assert (n - 1) * step == last;
    forall y | y in Rep(xs, step, n) ensures lo + last <= y <= hi { BetweenDown(xs, step, n, lo, hi, y); }
  }

  lemma BetweenDown(xs: seq<int>, step: int, n: int, lo: int, hi: int, y: int)
    requires IsLeast(xs, lo) && IsGreatest(xs, hi) && step <= 0 && n >= 1 && y in Rep(xs, step, n)
    ensures lo + step * (n - 1) <= y <= hi
  {
    hide Rep;
    var k, j := RepMember(xs, step, n, y);
    assert xs[j] in xs;
    ScaledSteps(-step, k, n - 1);
    MulNonNegative(k, -step);
    assert k * (-step) == -(k * step) && (-step) * (n - 1) == -(step * (n - 1));
  }

  /** Repeated downwards, the last repetition is the lowest and the first the highest. */
  lemma RepeatedDown(m: Entries, step: int, n: int)
    requires Proper(m) && step <= 0 && n >= 1
    ensures Low(Repeated(m, step, n)) == Low(m) + step * (n - 1) && High(Repeated(m, step, n)) == High(m)
  {
    hide Rep, Least, Greatest, IsLeast, IsGreatest;
    var r := Repeated(m, step, n);
    RepEmpty(m.bytes, step, n); RepEmpty(m.lbs, step, n); RepEmpty(m.ubs, step, n);
    RepShift(m.bytes, step, n, 1);
    assert Lows(r) == Rep(Lows(m), step, n) && Highs(r) == Rep(Highs(m), step, n);
    LeastIs(Lows(m), Low(m));
    GreatestIs(Highs(m), High(m));
    GreatestIs(Lows(m), Greatest(Lows(m)));
    LeastIs(Highs(m), Least(Highs(m)));
    RepDown(Lows(m), step, n, Low(m), Greatest(Lows(m)));
    RepDown(Highs(m), step, n, Least(Highs(m)), High(m));
    LeastIs(Lows(r), Low(m) + step * (n - 1));
    GreatestIs(Highs(r), High(m));
  }

  lemma DownwardMpi(t: Datatype)
    requires (t.Vector? || t.HVector?) && t.stride <= 0 && t.count >= 1 && t.blocklen >= 1 && Positive(t.base)
    ensures var e := MpiExtent(t.base);
      && MpiLb(t) == MpiLb(t.base) + (if t.Vector? then t.stride * e else t.stride) * (t.count - 1)
      && MpiUb(t) == MpiLb(t.base) + t.blocklen * e
  {
    hide Low, High;
    var m, e := Meaning(t.base), MpiExtent(t.base);
    MpiSpans(t.base);
    RepeatSpans(m, e, t.blocklen);
    if t.Vector? { MulNonNegative(-t.stride, e); assert (-t.stride) * e == -(t.stride * e); }
    RepeatedDown(Repeated(m, e, t.blocklen), if t.Vector? then t.stride * e else t.stride, t.count);
    MulDistributes(t.blocklen, 1, e);
    assert e * (t.blocklen - 1) == (t.blocklen - 1) * e;
  }

  /** A vector of stride zero or less over a right base stores its lower bound a whole block too high, and its upper
      bound off by the base's lower bound; so its bounds are never right. */
  lemma VectorDownExact(t: Datatype)
    requires t.Vector? && t.stride <= 0 && t.count >= 1 && t.blocklen >= 1 && Positive(t.base) && BoundsRight(t.base)
    ensures Lb(t) == MpiLb(t) + t.blocklen * MpiExtent(t.base) && Ub(t) == MpiUb(t) - MpiLb(t.base)
    ensures !BoundsRight(t)
  {
    hide Meaning, Low, High;
    var e, k := MpiExtent(t.base), t.stride * (t.count - 1);
    DownwardMpi(t);
    MpiSpans(t.base);
    MulPositive(t.blocklen, e);
    MulDistributes(k + t.blocklen, 1, e);
    MulDistributes(k, t.blocklen, e);
    Reassociate(t.stride, e, t.count - 1);
  }

  lemma Reassociate(a: int, b: int, c: int)
    ensures a * b * c == a * c * b
  {
    MulAssoc(a, b, c);
    MulAssoc(a, c, b);
  }

  /** An hvector's stride counts bytes, but its stored lower bound multiplies it by the base's extent: it is right if
      and only if that and the block length cancel. */
  lemma HVectorDownExact(t: Datatype)
    requires t.HVector? && t.stride <= 0 && t.count >= 1 && t.blocklen >= 1 && Positive(t.base) && BoundsRight(t.base)
    ensures var e, k := MpiExtent(t.base), t.stride * (t.count - 1);
      && Lb(t) == MpiLb(t.base) + (k + t.blocklen) * e && Ub(t) == MpiUb(t) - MpiLb(t.base)
      && (Lb(t) == MpiLb(t) <==> (k + t.blocklen) * e == k)
  {
    hide Meaning, Low, High;
    DownwardMpi(t);
    MpiSpans(t.base);
    MulDistributes(t.stride * (t.count - 1) + t.blocklen, 1, MpiExtent(t.base));
  }

  /** Types of nothing store zero for both bounds; a vector of no blocks does not. */
  lemma EmptyBounds(blocklen: int, stride: int, base: Datatype)
    ensures Lb(HVector(0, blocklen, stride, base)) == 0 && Ub(HVector(0, blocklen, stride, base)) == 0
    ensures Lb(IndexedBlock(blocklen, [], base)) == 0 && Ub(IndexedBlock(blocklen, [], base)) == 0
    ensures Lb(HIndexed([], base)) == 0 && Ub(HIndexed([], base)) == 0 && Lb(Struct([])) == 0 && Ub(Struct([])) == 0
    ensures stride > 0 ==> Ub(Vector(0, blocklen, stride, base)) == Ub(base) + (blocklen - 1 - stride) * Extent(base)
    ensures MpiMap(HVector(0, blocklen, stride, base)) == [] && MpiMap(Vector(0, blocklen, stride, base)) == []
  {
    assert stride * (0 - 1) == -stride;
  }
}
