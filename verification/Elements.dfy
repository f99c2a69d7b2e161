/** Sequences of array indices, as manual pack loops visit them, and the byte typemaps they stand for. */
module Elements {
  import opened Arithmetic
  import opened Datatypes
  import opened Typemap
  import opened Bounds
  import opened Transfers

  /** The bytes of the elements with these indices, `size` bytes each. */
  function ElementBytes(size: nat, idx: seq<int>): seq<int> {
    if idx == [] then [] else Shift(Iota(size), size * idx[0]) + ElementBytes(size, idx[1..])
  }

  /** n elements, `step` apart; then m rows `pitch` apart. */
  function Row(step: int, n: int): seq<int> { Rep([0], step, n) }
  function Plane(step: int, n: int, pitch: int, m: int): seq<int> { Rep(Row(step, n), pitch, m) }

  lemma {:induction false} ElementBytesConcat(size: nat, a: seq<int>, b: seq<int>)
    ensures ElementBytes(size, a + b) == ElementBytes(size, a) + ElementBytes(size, b)
  {
    if a == [] {
      assert a + b == b;
    } else {
      assert (a + b)[1..] == a[1..] + b;
      ElementBytesConcat(size, a[1..], b);
    }
  }

  lemma {:induction false} ElementBytesShift(size: nat, idx: seq<int>, d: int)
    ensures ElementBytes(size, Shift(idx, d)) == Shift(ElementBytes(size, idx), size * d)
  {
    if idx != [] {
      var block, rest := Iota(size), ElementBytes(size, idx[1..]);
      ElementBytesShift(size, idx[1..], d);
      FirstElement(size, idx, d);
      ShiftShift(block, size * idx[0], size * d);
      ShiftConcat(Shift(block, size * idx[0]), rest, size * d);
    }
  }

  lemma FirstElement(size: nat, idx: seq<int>, d: int)
    requires idx != []
    ensures ElementBytes(size, Shift(idx, d))
         == Shift(Iota(size), size * idx[0] + size * d) + ElementBytes(size, Shift(idx[1..], d))
  {
    assert Shift(idx, d)[1..] == Shift(idx[1..], d) && Shift(idx, d)[0] == idx[0] + d;
    MulDistributes(idx[0], d, size);
  }

  lemma {:induction false} ElementBytesRep(size: nat, idx: seq<int>, step: int, n: int)
    ensures ElementBytes(size, Rep(idx, step, n)) == Rep(ElementBytes(size, idx), size * step, n)
    decreases n
  {
    if n > 0 {
      var rest := Rep(idx, step, n - 1);
      ElementBytesConcat(size, idx, Shift(rest, step));
      ElementBytesShift(size, rest, step);
      ElementBytesRep(size, idx, step, n - 1);
    }
  }

  lemma OneElement(size: nat)
    ensures ElementBytes(size, [0]) == Iota(size)
  {
    ShiftZero(Iota(size));
    assert ElementBytes(size, [0][1..]) == [];
  }

  /** n consecutive elements are n copies of the primitive. */
  lemma RowBytes(p: PrimitiveType, step: int, n: int)
    ensures ElementBytes(PrimitiveSize(p), Row(step, n)) == Rep(Map(Primitive(p)), PrimitiveSize(p) * step, n)
  {
    OneElement(PrimitiveSize(p));
    ElementBytesRep(PrimitiveSize(p), [0], step, n);
    assert Map(Primitive(p)) == Iota(PrimitiveSize(p));
  }

  /** One more repetition at the end, as a loop adds it. */
  lemma RepAppend(idx: seq<int>, step: int, n: int)
    requires n >= 0
    ensures Rep(idx, step, n + 1) == Rep(idx, step, n) + Shift(idx, n * step)
  {
    RepSplit(idx, step, n, 1);
    RepOne(idx, step);
  }

  lemma ShiftedAppend(idx: seq<int>, step: int, n: int, first: int)
    requires n >= 0
    ensures Shift(Rep(idx, step, n + 1), first) == Shift(Rep(idx, step, n), first) + Shift(idx, first + n * step)
  {
    RepAppend(idx, step, n);
    ShiftConcat(Rep(idx, step, n), Shift(idx, n * step), first);
    ShiftShift(idx, n * step, first);
  }

  // ----- gathering and scattering -----

  predicate InBounds(idx: seq<int>, n: int) { forall i :: 0 <= i < |idx| ==> 0 <= idx[i] < n }

  function Gather<T>(a: seq<T>, idx: seq<int>): seq<T>
    requires InBounds(idx, |a|)
  {
    seq(|idx|, i requires 0 <= i < |idx| => a[idx[i]])
  }

  function Scatter<T>(a: seq<T>, idx: seq<int>, values: seq<T>): (r: seq<T>)
    requires InBounds(idx, |a|) && |idx| == |values|
    ensures |r| == |a|
  {
    if idx == [] then a
    else
      var n := |idx| - 1;
      Scatter(a, idx[..n], values[..n])[idx[n] := values[n]]
  }

  /** Scattering changes nothing else, and the last value written to an index stays. */
  lemma {:induction false} ScatterEffect<T>(a: seq<T>, idx: seq<int>, values: seq<T>, i: int)
    requires InBounds(idx, |a|) && |idx| == |values| && 0 <= i < |a|
    ensures i !in idx ==> Scatter(a, idx, values)[i] == a[i]
    ensures forall p :: 0 <= p < |idx| && idx[p] == i && i !in idx[p + 1..] ==> Scatter(a, idx, values)[i] == values[p]
  {
    if idx != [] {
      var n := |idx| - 1;
      ScatterEffect(a, idx[..n], values[..n], i);
      forall p | 0 <= p < |idx| && idx[p] == i && i !in idx[p + 1..]
        ensures Scatter(a, idx, values)[i] == values[p]
      {
        if p < n {
          assert idx[p + 1..][n - p - 1] == idx[n];
          forall q | p + 1 <= q < n ensures idx[..n][q] != i { assert idx[p + 1..][q - p - 1] == idx[q]; }
        }
      }
    }
  }

  /** On distinct indices each of the two undoes the other. */
  lemma GatherScatter<T>(a: seq<T>, idx: seq<int>, values: seq<T>)
    requires InBounds(idx, |a|) && |idx| == |values| && Distinct(idx)
    ensures Gather(Scatter(a, idx, values), idx) == values
    ensures Scatter(a, idx, Gather(a, idx)) == a
  {
    forall p | 0 <= p < |idx| ensures Scatter(a, idx, values)[idx[p]] == values[p] {
      ScatterEffect(a, idx, values, idx[p]);
    }
    forall i | 0 <= i < |a| ensures Scatter(a, idx, Gather(a, idx))[i] == a[i] {
      ScatterEffect(a, idx, Gather(a, idx), i);
      if i in idx {
        var p :| 0 <= p < |idx| && idx[p] == i;
        assert i !in idx[p + 1..];
      }
    }
  }

  lemma DistinctShift(idx: seq<int>, d: int)
    requires Distinct(idx)
    ensures Distinct(Shift(idx, d))
  {}
}
