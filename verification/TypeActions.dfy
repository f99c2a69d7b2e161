/** The grammar actions that expand ranges: nested counting loops that push onto a list. */
module TypeActions {
  import opened Arithmetic
  import opened Datatypes
  import opened TypeLanguage

  /** The action of the contiguous rule. */
  method ContiguousAction(counts: Range, subtypes: seq<Datatype>) returns (types: seq<Datatype>)
    requires Finite(counts)
    ensures types == AllContiguous(Values(counts), subtypes)
  {
    types := [];
    for s := 0 to |subtypes|
      invariant types + AllContiguous(Values(counts), subtypes[s..]) == AllContiguous(Values(counts), subtypes)
    {
      assert subtypes[s..][0] == subtypes[s] && subtypes[s..][1..] == subtypes[s + 1..];
      Regrouped(types, Contiguouses(Values(counts), subtypes[s]), AllContiguous(Values(counts), subtypes[s + 1..]));
      types := ContiguousLoop(counts, subtypes[s], types);
    }
  }

  method ContiguousLoop(counts: Range, base: Datatype, before: seq<Datatype>) returns (types: seq<Datatype>)
    requires Finite(counts)
    ensures types == before + Contiguouses(Values(counts), base)
  {
    types := before;
    var r := counts;
    while r.start <= r.stop
      invariant r.stop == counts.stop && r.stride == counts.stride && Finite(r)
      invariant types + Contiguouses(Values(r), base) == before + Contiguouses(Values(counts), base)
      decreases r.stop - r.start
    {
      ghost var next := r.(start := r.start + r.stride);
      assert Values(r)[0] == r.start && Values(r)[1..] == Values(next);
      Push(types, Contiguous(r.start, base), Contiguouses(Values(next), base));
      types := types + [Contiguous(r.start, base)];
      r := r.(start := r.start + r.stride);
    }
  }

  lemma Push(types: seq<Datatype>, t: Datatype, more: seq<Datatype>)
    ensures types + ([t] + more) == types + [t] + more
  {}

  lemma Regrouped(a: seq<Datatype>, b: seq<Datatype>, c: seq<Datatype>)
    ensures a + (b + c) == a + b + c
  {}

  /** createVecs. */
  method CreateVecs(h: bool, counts: Range, blocklens: Range, strides: Range, subtypes: seq<Datatype>)
    returns (types: seq<Datatype>)
    requires Finite(counts) && Finite(blocklens) && Finite(strides)
    ensures types == Vecs(h, Values(counts), Values(blocklens), Values(strides), subtypes)
  {
    types := [];
    ghost var cs, bs, ss := Values(counts), Values(blocklens), Values(strides);
    for s := 0 to |subtypes|
      invariant types + Vecs(h, cs, bs, ss, subtypes[s..]) == Vecs(h, cs, bs, ss, subtypes)
    {
      assert subtypes[s..][0] == subtypes[s] && subtypes[s..][1..] == subtypes[s + 1..];
      ghost var all := VecCounts(h, cs, bs, ss, subtypes[s]);
      Regrouped(types, all, Vecs(h, cs, bs, ss, subtypes[s + 1..]));
      types := CountLoop(h, counts, blocklens, strides, subtypes[s], types);
    }
  }

  method CountLoop(h: bool, counts: Range, blocklens: Range, strides: Range, base: Datatype, before: seq<Datatype>)
    returns (types: seq<Datatype>)
    requires Finite(counts) && Finite(blocklens) && Finite(strides)
    ensures types == before + VecCounts(h, Values(counts), Values(blocklens), Values(strides), base)
  {
    types := before;
    ghost var bs, ss := Values(blocklens), Values(strides);
    var r := counts;
    while r.start <= r.stop
      invariant r.stop == counts.stop && r.stride == counts.stride && Finite(r)
      invariant types + VecCounts(h, Values(r), bs, ss, base) == before + VecCounts(h, Values(counts), bs, ss, base)
      decreases r.stop - r.start
    {
      ghost var next := r.(start := r.start + r.stride);
      assert Values(r)[0] == r.start && Values(r)[1..] == Values(next);
      Regrouped(types, VecBlocklens(h, r.start, bs, ss, base), VecCounts(h, Values(next), bs, ss, base));
      types := BlocklenLoop(h, r.start, blocklens, strides, base, types);
      r := r.(start := r.start + r.stride);
    }
  }

  method BlocklenLoop(h: bool, count: int, blocklens: Range, strides: Range, base: Datatype, before: seq<Datatype>)
    returns (types: seq<Datatype>)
    requires Finite(blocklens) && Finite(strides)
    ensures types == before + VecBlocklens(h, count, Values(blocklens), Values(strides), base)
  {
    types := before;
    ghost var ss := Values(strides);
    var r := blocklens;
    while r.start <= r.stop
      invariant r.stop == blocklens.stop && r.stride == blocklens.stride && Finite(r)
      invariant types + VecBlocklens(h, count, Values(r), ss, base)
             == before + VecBlocklens(h, count, Values(blocklens), ss, base)
      decreases r.stop - r.start
    {
      ghost var next := r.(start := r.start + r.stride);
      assert Values(r)[0] == r.start && Values(r)[1..] == Values(next);
      Regrouped(types, VecStrides(h, count, r.start, ss, base), VecBlocklens(h, count, Values(next), ss, base));
      types := StrideLoop(h, count, r.start, strides, base, types);
      r := r.(start := r.start + r.stride);
    }
  }

  method StrideLoop(h: bool, count: int, blocklen: int, strides: Range, base: Datatype, before: seq<Datatype>)
    returns (types: seq<Datatype>)
    requires Finite(strides)
    ensures types == before + VecStrides(h, count, blocklen, Values(strides), base)
  {
    types := before;
    var r := strides;
    while r.start <= r.stop
      invariant r.stop == strides.stop && r.stride == strides.stride && Finite(r)
      invariant types + VecStrides(h, count, blocklen, Values(r), base)
             == before + VecStrides(h, count, blocklen, Values(strides), base)
      decreases r.stop - r.start
    {
      ghost var next := r.(start := r.start + r.stride);
      assert Values(r)[0] == r.start && Values(r)[1..] == Values(next);
      Push(types, Vec(h, count, blocklen, r.start, base), VecStrides(h, count, blocklen, Values(next), base));
      types := types + [Vec(h, count, blocklen, r.start, base)];
      r := r.(start := r.start + r.stride);
    }
  }

  // ----- what a range denotes -----

  /** start, start + stride, ... up to stop: every one of these, and no other number. */
  lemma {:induction false} ValuesExact(r: Range, x: int)
    requires Finite(r)
    ensures x in Values(r) <==> r.start <= x <= r.stop && (x - r.start) % r.stride == 0
    decreases if r.start > r.stop then 0 else r.stop - r.start + 1
  {
    if r.start <= r.stop {
      var next := r.(start := r.start + r.stride);
      ValuesExact(next, x);
      OneStrideOn(x - r.start, r.stride);
    }
  }

  lemma OneStrideOn(d: int, stride: int)
    requires stride >= 1
    ensures (d - stride) % stride == d % stride
    ensures d % stride == 0 ==> d <= 0 || d >= stride
  {
    var q := d / stride;
    assert d == q * stride + d % stride;
    assert d - stride == (q - 1) * stride + d % stride;
    Unique(d - stride, q - 1, d % stride, stride);
    if d % stride == 0 && d > 0 { assert q >= 1; }
  }

  lemma Unique(d: int, q: int, r: int, stride: int)
    requires stride >= 1 && d == q * stride + r && 0 <= r < stride
    ensures d % stride == r
  {
    var k := d / stride - q;
    assert k * stride == r - d % stride;
    MulPositive(if k >= 1 then k else 1, stride);
    MulPositive(if k <= -1 then -k else 1, stride);
  }

  /** createVecs makes exactly one kind of type for each choice of subtype, count, blocklen and stride. */
  lemma {:induction false} VecsExact(h: bool, cs: seq<int>, bs: seq<int>, ss: seq<int>, bases: seq<Datatype>,
                                     t: Datatype)
    ensures t in Vecs(h, cs, bs, ss, bases) <==>
      (if h then t.HVector? else t.Vector?) && t.base in bases && t.count in cs && t.blocklen in bs && t.stride in ss
  {
    if bases != [] {
      VecCountsExact(h, cs, bs, ss, bases[0], t);
      VecsExact(h, cs, bs, ss, bases[1..], t);
    }
  }

  lemma {:induction false} VecCountsExact(h: bool, cs: seq<int>, bs: seq<int>, ss: seq<int>, base: Datatype,
                                          t: Datatype)
    ensures t in VecCounts(h, cs, bs, ss, base) <==>
      (if h then t.HVector? else t.Vector?) && t.base == base && t.count in cs && t.blocklen in bs && t.stride in ss
  {
    if cs != [] {
      VecBlocklensExact(h, cs[0], bs, ss, base, t);
      VecCountsExact(h, cs[1..], bs, ss, base, t);
    }
  }

  lemma {:induction false} VecBlocklensExact(h: bool, count: int, bs: seq<int>, ss: seq<int>, base: Datatype,
                                             t: Datatype)
    ensures t in VecBlocklens(h, count, bs, ss, base) <==>
      (if h then t.HVector? else t.Vector?) && t.base == base && t.count == count && t.blocklen in bs && t.stride in ss
  {
    if bs != [] {
      VecStridesExact(h, count, bs[0], ss, base, t);
      VecBlocklensExact(h, count, bs[1..], ss, base, t);
    }
  }

  lemma {:induction false} VecStridesExact(h: bool, count: int, blocklen: int, ss: seq<int>, base: Datatype,
                                           t: Datatype)
    ensures t in VecStrides(h, count, blocklen, ss, base) <==>
      (if h then t.HVector? else t.Vector?) && t.base == base && t.count == count && t.blocklen == blocklen
          && t.stride in ss
  {
    if ss != [] { VecStridesExact(h, count, blocklen, ss[1..], base, t); }
  }
}
