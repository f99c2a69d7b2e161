/** The bounds the constructors store, and the typemaps built on them, against MPI's. */
module MpiBounds {
  import opened Arithmetic
  import opened Datatypes
  import opened Typemap
  import opened Wellformed
  import opened Bounds
  import opened Mpi

  predicate ExtentRight(t: Datatype) { Extent(t) == MpiExtent(t) }
  predicate BoundsRight(t: Datatype) { Lb(t) == MpiLb(t) && Ub(t) == MpiUb(t) }
  predicate MapRight(t: Datatype) { Map(t) == MpiMap(t) }

  lemma MpiSpans(t: Datatype)
    requires Positive(t)
    ensures Spans(Meaning(t)) && Proper(Meaning(t)) && MpiMap(t) != [] && MpiExtent(t) >= 1
    ensures MpiUb(t) == MpiLb(t) + MpiExtent(t)
  {
    MeaningSpans(t);
  }

  /** Two pitches give the same copies if and only if they are equal or there is one copy. */
  lemma PitchShows(tm: seq<int>, a: int, b: int, n: int)
    requires tm != [] && n >= 1
    ensures Rep(tm, a, n) == Rep(tm, b, n) <==> n == 1 || a == b
  {
    if n == 1 {
      RepOne(tm, a);
      RepOne(tm, b);
    } else {
      RepAt(tm, a, n, 1, 0);
      RepAt(tm, b, n, 1, 0);
    }
  }

  /** A whole number of items: right if the pitch is. */
  lemma ItemsExact(t: Datatype, n: int)
    requires Positive(t) && MapRight(t) && n >= 1
    ensures Copies(t, n) == MpiCopies(t, n) <==> n == 1 || ExtentRight(t)
  {
    hide Map, Extent, Meaning, MpiExtent, Positive;
    MpiSpans(t);
    PitchShows(Map(t), Extent(t), MpiExtent(t), n);
  }

  // ----- contiguous types and vectors -----

  lemma ContiguousMpi(t: Datatype)
    requires t.Contiguous? && Positive(t)
    ensures MpiLb(t) == MpiLb(t.base) && MpiExtent(t) == t.count * MpiExtent(t.base)
  {
    var m := Meaning(t.base);
    MpiSpans(t.base);
    RepeatSpans(m, MpiExtent(t.base), t.count);
    MulDistributes(t.count, 1, MpiExtent(t.base));
    assert MpiExtent(t.base) * (t.count - 1) == (t.count - 1) * MpiExtent(t.base);
  }

  lemma CancelFactor(n: int, a: int, b: int)
    requires n >= 1
    ensures n * a == n * b <==> a == b
  {
    MulDistributes(a, b, n);
    MulPositive(if a > b then a - b else 1, n);
    MulPositive(if b > a then b - a else 1, n);
    MulDistributes(b, a, n);
  }

  lemma ContiguousExtentExact(t: Datatype)
    requires t.Contiguous? && Positive(t)
    ensures ExtentRight(t) <==> ExtentRight(t.base)
    ensures BoundsRight(t) <==> BoundsRight(t.base)
  {
    hide Meaning, Low, High;
    ContiguousMpi(t);
    MpiSpans(t);
    MpiSpans(t.base);
    MulDistributes(t.count, 1, Extent(t.base));
    assert Extent(t.base) * (t.count - 1) == (t.count - 1) * Extent(t.base);
    assert Extent(t) == t.count * Extent(t.base);
    CancelFactor(t.count, Extent(t.base), MpiExtent(t.base));
  }

  lemma ContiguousMapExact(t: Datatype)
    requires t.Contiguous? && Positive(t) && MapRight(t.base)
    ensures MapRight(t) <==> t.count == 1 || ExtentRight(t.base)
  {
    hide Low, High, Rep;
    MpiSpans(t.base);
    assert Map(t) == Rep(Map(t.base), Extent(t.base), t.count);
    assert MpiMap(t) == Rep(MpiMap(t.base), MpiExtent(t.base), t.count);
    PitchShows(Map(t.base), Extent(t.base), MpiExtent(t.base), t.count);
  }

  /** Items an extent e apart cover this many extents and bytes. */
  function VectorSpan(t: Datatype, e: int): int
    requires t.Vector? || t.HVector?
  {
    if t.Vector? then (t.stride * (t.count - 1) + t.blocklen) * e else t.blocklen * e + t.stride * (t.count - 1)
  }

  lemma VectorMpi(t: Datatype)
    requires (t.Vector? || t.HVector?) && Positive(t)
    ensures MpiLb(t) == MpiLb(t.base) && MpiExtent(t) == VectorSpan(t, MpiExtent(t.base))
  {
    hide Low, High;
    var m, e := Meaning(t.base), MpiExtent(t.base);
    MpiSpans(t.base);
    RepeatSpans(m, e, t.blocklen);
    if t.Vector? {
      MulNonNegative(t.stride, e);
      RepeatSpans(Repeated(m, e, t.blocklen), t.stride * e, t.count);
      VectorUb(MpiUb(t.base), e, t.stride, t.count, t.blocklen);
      MulDistributes(t.stride * (t.count - 1) + t.blocklen, 1, e);
    } else {
      RepeatSpans(Repeated(m, e, t.blocklen), t.stride, t.count);
      MulDistributes(t.blocklen, 1, e);
      assert e * (t.blocklen - 1) == (t.blocklen - 1) * e;
    }
  }

  lemma VectorExtentExact(t: Datatype)
    requires (t.Vector? || t.HVector?) && Positive(t)
    ensures ExtentRight(t) <==> ExtentRight(t.base)
    ensures BoundsRight(t) <==> BoundsRight(t.base)
  {
    hide Meaning, Low, High;
    VectorMpi(t);
    MpiSpans(t);
    MpiSpans(t.base);
    StoredVectorSpan(t);
    if t.Vector? {
      MulNonNegative(t.stride, t.count - 1);
      CancelFactor(t.stride * (t.count - 1) + t.blocklen, Extent(t.base), MpiExtent(t.base));
    } else {
      CancelFactor(t.blocklen, Extent(t.base), MpiExtent(t.base));
    }
  }

  lemma StoredVectorSpan(t: Datatype)
    requires (t.Vector? || t.HVector?) && Positive(t)
    ensures Lb(t) == Lb(t.base) && Extent(t) == VectorSpan(t, Extent(t.base)) && Ub(t) == Lb(t) + Extent(t)
  {
    var e := Extent(t.base);
    MulDistributes(t.stride * (t.count - 1) + t.blocklen, 1, e);
    MulDistributes(t.blocklen, 1, e);
  }

  lemma VectorMapExact(t: Datatype)
    requires (t.Vector? || t.HVector?) && Positive(t) && MapRight(t.base)
    ensures MapRight(t) <==> ExtentRight(t.base) || (t.blocklen == 1 && (t.count == 1 || t.HVector?))
  {
    hide Positive, Rep, Meaning, Map, Extent, MpiExtent;
    var tm, a, b := Map(t.base), Extent(t.base), MpiExtent(t.base);
    VectorMaps(t);
    VectorParts(t);
    MpiSpans(t.base);
    if t.Vector? {
      StridesShow(tm, a, b, t.blocklen, t.stride * a, t.stride * b, t.count);
      CancelFactor(t.stride, a, b);
    } else {
      StridesShow(tm, a, b, t.blocklen, t.stride, t.stride, t.count);
    }
  }

  lemma VectorParts(t: Datatype)
    requires (t.Vector? || t.HVector?) && Positive(t)
    ensures Positive(t.base) && t.blocklen >= 1 && t.count >= 1 && t.stride >= 1
  {}

  lemma VectorMaps(t: Datatype)
    requires (t.Vector? || t.HVector?) && MapRight(t.base)
    ensures var step := if t.Vector? then t.stride * Extent(t.base) else t.stride;
      Map(t) == Rep(Rep(Map(t.base), Extent(t.base), t.blocklen), step, t.count)
    ensures var step := if t.Vector? then t.stride * MpiExtent(t.base) else t.stride;
      MpiMap(t) == Rep(Rep(Map(t.base), MpiExtent(t.base), t.blocklen), step, t.count)
  {
    hide Rep, Low, High;
  }

  lemma StridesShow(tm: seq<int>, a: int, b: int, blocklen: int, s: int, u: int, count: int)
    requires tm != [] && blocklen >= 1 && count >= 1
    ensures Rep(Rep(tm, a, blocklen), s, count) == Rep(Rep(tm, b, blocklen), u, count)
       <==> (blocklen == 1 || a == b) && (count == 1 || s == u)
  {
    var x, y := Rep(tm, a, blocklen), Rep(tm, b, blocklen);
    RepEmpty(tm, a, blocklen); RepEmpty(tm, b, blocklen);
    RepLength(tm, a, blocklen); RepLength(tm, b, blocklen);
    PitchShows(tm, a, b, blocklen);
    if Rep(x, s, count) == Rep(y, u, count) {
      FirstBlockIs(x, s, count);
      FirstBlockIs(y, u, count);
      assert x == y;
    }
    PitchShows(x, s, u, count);
  }

  lemma FirstBlockIs(tm: seq<int>, step: int, n: int)
    requires n >= 1
    ensures |Rep(tm, step, n)| >= |tm| && Rep(tm, step, n)[..|tm|] == tm
  {}

  // ----- indexed blocks -----

  lemma IndexedBlocksCount(displs: seq<int>, blocklen: int, m: Entries, i: int)
    requires Spans(m) && blocklen >= 1 && 0 <= i < |displs|
    ensures var ms := IndexedBlocks(displs, blocklen, m);
      && Counts(ms, i) && Low(ms[i]) == Low(m) + displs[i] * Span(m)
      && High(ms[i]) == Low(m) + displs[i] * Span(m) + blocklen * Span(m)
  {
    hide Low, High, Block;
    var ms := IndexedBlocks(displs, blocklen, m);
    BlockBounds(m, blocklen, displs[i] * Span(m));
    if AnyMarked(ms) {
      var j :| 0 <= j < |ms| && ms[j].lbs != [];
      BlockBounds(m, blocklen, displs[j] * Span(m));
    }
  }

  /** MPI's bounds of an indexed block: the least and the greatest displacement count, wherever they stand. */
  lemma IndexedBlockMpi(t: Datatype)
    requires t.IndexedBlock? && Positive(t)
    ensures var e := MpiExtent(t.base);
      var places := Scaled(t.displs, e);
      && MpiLb(t) == MpiLb(t.base) + Least(places)
      && MpiUb(t) == MpiLb(t.base) + Greatest(places) + t.blocklen * e
  {
    hide Low, High, Block, Laid, Least, Greatest, Counts, Span, Spans;
    var m, e := Meaning(t.base), MpiExtent(t.base);
    var ms, places := IndexedBlocks(t.displs, t.blocklen, m), Scaled(t.displs, e);
    MpiSpans(t.base);
    IndexedBlocksSpan(t.displs, t.blocklen, m);
    LeastIs(places, Least(places));
    GreatestIs(places, Greatest(places));
    forall i | 0 <= i < |ms|
      ensures Counts(ms, i) && Low(ms[i]) == Low(m) + places[i] && High(ms[i]) == Low(m) + places[i] + t.blocklen * e
      ensures Least(places) <= places[i] <= Greatest(places)
    {
      IndexedBlocksCount(t.displs, t.blocklen, m, i);
      assert places[i] in places;
    }
    var i :| 0 <= i < |places| && places[i] == Least(places);
    var j :| 0 <= j < |places| && places[j] == Greatest(places);
    assert Low(ms[i]) == Low(m) + Least(places) && High(ms[j]) == Low(m) + Greatest(places) + t.blocklen * e;
    SpansProper(ms);
    LaidLow(ms, Low(m) + Least(places));
    LaidHigh(ms, Low(m) + Greatest(places) + t.blocklen * e);
  }

  lemma SpansProper(ms: seq<Entries>)
    requires ms != [] && forall i :: 0 <= i < |ms| ==> Spans(ms[i])
    ensures ProperBlocks(ms) && SomeSolid(ms)
  {
    assert Spans(ms[0]);
  }

  /** The unscaled initial values are harmless iff some block starts no later than displ[0] and
      some block ends no earlier than displ[0] + blocklen * extent (both read as bytes). */
  predicate IndexedBlockBoundsOk(displs: seq<int>, extent: int)
    requires |displs| >= 1
  {
    (exists x <- Scaled(displs, extent) :: x <= displs[0]) && (exists x <- Scaled(displs, extent) :: displs[0] <= x)
  }

  lemma StoredIndexedBlock(t: Datatype)
    requires t.IndexedBlock? && |t.displs| >= 1
    ensures var e := Extent(t.base);
      var places := Scaled(t.displs, e);
      && places != [] && Lb(t) == Min(t.displs[0], Least(places))
      && Ub(t) == Max(t.displs[0], Greatest(places)) + t.blocklen * e
  {
    hide Extent, Lb, Ub;
    var e, d := Extent(t.base), t.displs[0];
    var places, ends := Scaled(t.displs, e), ScaledEnds(t.displs, t.blocklen, e);
    LbUbOfIndexed(t);
    MinFromIsLeast(d, places);
    MinFromIsLeast(places[0], places);
    MaxFromIsGreatest(places[0], places);
    MaxFromIsGreatest(d + t.blocklen * e, ends);
    assert places[0] in places;
    forall i | 0 <= i < |ends| ensures ends[i] == places[i] + t.blocklen * e && ends[i] in ends && places[i] in places {
      MulDistributes(t.displs[i], t.blocklen, e);
    }
    var g :| 0 <= g < |places| && places[g] == Greatest(places);
    assert ends[g] in ends;
  }

  lemma LbUbOfIndexed(t: Datatype)
    requires t.IndexedBlock?
    ensures Lb(t) == IndexedBlockLb(t.displs, Extent(t.base))
    ensures Ub(t) == IndexedBlockUb(t.displs, t.blocklen, Extent(t.base))
  {}

  lemma OkMeansBetween(displs: seq<int>, e: int)
    requires |displs| >= 1
    ensures Scaled(displs, e) != []
    ensures IndexedBlockBoundsOk(displs, e)
       <==> Least(Scaled(displs, e)) <= displs[0] <= Greatest(Scaled(displs, e))
  {
    var places := Scaled(displs, e);
    MinFromIsLeast(places[0], places);
    MaxFromIsGreatest(places[0], places);
    assert places[0] in places;
  }

  /** The stored extent of an indexed block over a base of the right extent is MPI's if and only if the unscaled
      first displacement lies between the scaled ones; its bounds are if also the base starts at zero. */
  lemma IndexedBlockExact(t: Datatype)
    requires t.IndexedBlock? && Positive(t) && ExtentRight(t.base)
    ensures ExtentRight(t) <==> IndexedBlockBoundsOk(t.displs, Extent(t.base))
    ensures BoundsRight(t) <==> IndexedBlockBoundsOk(t.displs, Extent(t.base)) && MpiLb(t.base) == 0
  {
    hide Meaning, Lb, Ub, Low, High, Least, Greatest;
    StoredIndexedBlock(t);
    IndexedBlockMpi(t);
    MpiSpans(t);
    OkMeansBetween(t.displs, Extent(t.base));
    MinFromIsLeast(Scaled(t.displs, Extent(t.base))[0], Scaled(t.displs, Extent(t.base)));
    assert Extent(t) == Ub(t) - Lb(t);
    LeastBelowGreatest(Scaled(t.displs, Extent(t.base)));
  }

  lemma LeastBelowGreatest(xs: seq<int>)
    requires xs != []
    ensures Least(xs) <= Greatest(xs)
  {
    MinFromIsLeast(xs[0], xs);
    MaxFromIsGreatest(xs[0], xs);
  }

  lemma {:induction false} LaidIndexed(displs: seq<int>, blocklen: int, m: Entries)
    ensures Laid(IndexedBlocks(displs, blocklen, m)).bytes
         == BlocksMap(displs, Span(m), Rep(m.bytes, Span(m), blocklen))
  {
    if displs != [] {
      LaidIndexed(displs[1..], blocklen, m);
      assert IndexedBlocks(displs, blocklen, m)[1..] == IndexedBlocks(displs[1..], blocklen, m);
    }
  }

  /** Two lists of blocks of the same length agree if and only if they agree block by block. */
  lemma {:induction false} BlocksShow(displs: seq<int>, a: int, b: int, x: seq<int>, y: seq<int>)
    requires |x| == |y|
    ensures BlocksMap(displs, a, x) == BlocksMap(displs, b, y)
       <==> forall i :: 0 <= i < |displs| ==> Shift(x, displs[i] * a) == Shift(y, displs[i] * b)
  {
    if displs != [] {
      BlocksShow(displs[1..], a, b, x, y);
      var u, v := Shift(x, displs[0] * a), Shift(y, displs[0] * b);
      var us, vs := BlocksMap(displs[1..], a, x), BlocksMap(displs[1..], b, y);
      assert forall i :: 0 < i < |displs| ==> displs[i] == displs[1..][i - 1];
      assert forall i :: 0 <= i < |displs[1..]| ==> displs[1..][i] == displs[i + 1];
      if u + us == v + vs {
        assert u == (u + us)[..|x|] && v == (v + vs)[..|x|];
        assert us == (u + us)[|x|..] && vs == (v + vs)[|x|..];
      }
    }
  }

  lemma ScaledBlockShows(tm: seq<int>, a: int, b: int, blocklen: int, d: int)
    requires tm != [] && blocklen >= 1
    ensures Shift(Rep(tm, a, blocklen), d * a) == Shift(Rep(tm, b, blocklen), d * b)
       <==> a == b || (blocklen == 1 && d == 0)
  {
    var x, y := Shift(Rep(tm, a, blocklen), d * a), Shift(Rep(tm, b, blocklen), d * b);
    RepAt(tm, a, blocklen, 0, 0); RepAt(tm, b, blocklen, 0, 0);
    if blocklen == 1 {
      RepOne(tm, a); RepOne(tm, b);
      if x == y { assert x[0] == tm[0] + d * a && y[0] == tm[0] + d * b; }
      if d > 0 { CancelFactor(d, a, b); } else if d < 0 { CancelFactor(-d, a, b); NegatedProducts(d, a, b); }
    } else {
      RepAt(tm, a, blocklen, 1, 0); RepAt(tm, b, blocklen, 1, 0);
      if x == y {
        assert x[0] == tm[0] + d * a && y[0] == tm[0] + d * b;
        assert x[|tm|] == tm[0] + a + d * a && y[|tm|] == tm[0] + b + d * b;
      }
    }
  }

  lemma NegatedProducts(d: int, a: int, b: int)
    ensures (-d) * a == -(d * a) && (-d) * b == -(d * b)
  {}

  lemma IndexedBlockMapExact(t: Datatype)
    requires t.IndexedBlock? && Positive(t) && MapRight(t.base)
    ensures MapRight(t) <==> ExtentRight(t.base) || (t.blocklen == 1 && forall d <- t.displs :: d == 0)
  {
    hide Rep, BlocksMap, Laid, Low, High;
    var tm, a, b := Map(t.base), Extent(t.base), MpiExtent(t.base);
    MpiSpans(t.base);
    LaidIndexed(t.displs, t.blocklen, Meaning(t.base));
    RepLength(tm, a, t.blocklen); RepLength(tm, b, t.blocklen);
    BlocksShow(t.displs, a, b, Rep(tm, a, t.blocklen), Rep(tm, b, t.blocklen));
    forall i | 0 <= i < |t.displs|
      ensures Shift(Rep(tm, a, t.blocklen), t.displs[i] * a) == Shift(Rep(tm, b, t.blocklen), t.displs[i] * b)
         <==> a == b || (t.blocklen == 1 && t.displs[i] == 0)
      ensures t.displs[i] in t.displs
    {
      ScaledBlockShows(tm, a, b, t.blocklen, t.displs[i]);
    }
    assert t.displs[0] in t.displs;
    if d :| d in t.displs && d != 0 {
      var k :| 0 <= k < |t.displs| && t.displs[k] == d;
      assert a == b <==>
        Shift(Rep(tm, a, t.blocklen), t.displs[k] * a) == Shift(Rep(tm, b, t.blocklen), t.displs[k] * b);
    }
    assert Map(t) == BlocksMap(t.displs, a, Rep(tm, a, t.blocklen));
    assert MpiMap(t) == BlocksMap(t.displs, b, Rep(tm, b, t.blocklen));
  }

  // ----- hindexed types -----

  /** Some nonempty block starts at the stored lower bound and some ends at the stored upper bound. */
  predicate HIndexedBoundsOk(entries: seq<Entry>, extent: int) {
    && (exists e <- entries :: e.blocklen >= 1 && e.displ == HIndexedLb(entries))
    && (exists e <- entries :: e.blocklen >= 1 && EntryEnd(e, extent) == HIndexedUb(entries, extent))
  }

  lemma EntryBlocksCount(entries: seq<Entry>, m: Entries, i: int)
    requires Spans(m) && (forall e <- entries :: e.blocklen >= 0) && 0 <= i < |entries|
    ensures var ms := EntryBlocks(entries, m);
      && (Counts(ms, i) <==> entries[i].blocklen >= 1)
      && (Counts(ms, i) ==> Low(ms[i]) == Low(m) + entries[i].displ)
      && (Counts(ms, i) ==> High(ms[i]) == Low(m) + EntryEnd(entries[i], Span(m)))
  {
    hide Low, High, Block;
    var ms := EntryBlocks(entries, m);
    assert entries[i] in entries;
    BlockBounds(m, entries[i].blocklen, entries[i].displ);
    if AnyMarked(ms) {
      var j :| 0 <= j < |ms| && ms[j].lbs != [];
      assert entries[j] in entries;
      BlockBounds(m, entries[j].blocklen, entries[j].displ);
    }
  }

  /** What is known of the blocks of an hindexed type. */
  ghost predicate EntryBlocksAre(entries: seq<Entry>, ms: seq<Entries>, lb: int, e: int) {
    && |ms| == |entries| && ProperBlocks(ms) && SomeSolid(ms)
    && forall i :: 0 <= i < |ms| ==>
         && (Counts(ms, i) <==> entries[i].blocklen >= 1)
         && (Counts(ms, i) ==> Low(ms[i]) == lb + entries[i].displ && High(ms[i]) == lb + EntryEnd(entries[i], e))
  }

  lemma HIndexedBlocks(t: Datatype)
    requires t.HIndexed? && Positive(t)
    ensures EntryBlocksAre(t.entries, EntryBlocks(t.entries, Meaning(t.base)), MpiLb(t.base), MpiExtent(t.base))
  {
    hide Low, High, Block, Laid, Counts, Span, Spans, EntryEnd;
    var m := Meaning(t.base);
    var ms := EntryBlocks(t.entries, m);
    MpiSpans(t.base);
    HIndexedParts(t);
    EntryBlocksSpan(t.entries, m);
    EntriesProper(t.entries, ms);
    forall i | 0 <= i < |ms|
      ensures Counts(ms, i) <==> t.entries[i].blocklen >= 1
      ensures Counts(ms, i) ==> Low(ms[i]) == Low(m) + t.entries[i].displ
      ensures Counts(ms, i) ==> High(ms[i]) == Low(m) + EntryEnd(t.entries[i], Span(m))
    {
      EntryBlocksCount(t.entries, m, i);
    }
  }

  /** MPI's bounds of an hindexed type are at lo and hi from the base's if and only if the nonempty blocks lie
      between and reach both. */
  lemma HIndexedMpi(t: Datatype, lo: int, hi: int)
    requires t.HIndexed? && Positive(t)
    requires forall x <- t.entries :: x.blocklen >= 1 ==> lo <= x.displ && EntryEnd(x, MpiExtent(t.base)) <= hi
    ensures MpiLb(t) >= MpiLb(t.base) + lo && MpiUb(t) <= MpiLb(t.base) + hi
    ensures MpiLb(t) == MpiLb(t.base) + lo <==> exists x <- t.entries :: x.blocklen >= 1 && x.displ == lo
    ensures MpiUb(t) == MpiLb(t.base) + hi
       <==> exists x <- t.entries :: x.blocklen >= 1 && EntryEnd(x, MpiExtent(t.base)) == hi
  {
    hide Low, High, Block, Counts, Span, Spans, EntryEnd, ProperBlocks, SomeSolid, LowAt, HighAt;
    var lb, e := MpiLb(t.base), MpiExtent(t.base);
    var ms := EntryBlocks(t.entries, Meaning(t.base));
    HIndexedBlocks(t);
    LaidLow(ms, lb + lo); LaidLow(ms, MpiLb(t));
    LaidHigh(ms, lb + hi); LaidHigh(ms, MpiUb(t));
    EntriesLow(t.entries, ms, lb, e, lo, MpiLb(t));
    EntriesHigh(t.entries, ms, lb, e, hi, MpiUb(t));
  }

  lemma EntriesLow(entries: seq<Entry>, ms: seq<Entries>, lb: int, e: int, lo: int, low: int)
    requires EntryBlocksAre(entries, ms, lb, e) && LowAt(ms, low)
    requires forall x <- entries :: x.blocklen >= 1 ==> lo <= x.displ
    ensures low >= lb + lo
    ensures LowAt(ms, lb + lo) <==> exists x <- entries :: x.blocklen >= 1 && x.displ == lo
  {
    hide Low, High, Counts, EntryEnd, ProperBlocks, SomeSolid;
    forall i | 0 <= i < |entries| ensures entries[i] in entries {}
    if x :| x in entries && x.blocklen >= 1 && x.displ == lo {
      var i :| 0 <= i < |entries| && entries[i] == x;
      assert Counts(ms, i) && Low(ms[i]) == lb + lo;
    }
  }

  lemma EntriesHigh(entries: seq<Entry>, ms: seq<Entries>, lb: int, e: int, hi: int, high: int)
    requires EntryBlocksAre(entries, ms, lb, e) && HighAt(ms, high)
    requires forall x <- entries :: x.blocklen >= 1 ==> EntryEnd(x, e) <= hi
    ensures high <= lb + hi
    ensures HighAt(ms, lb + hi) <==> exists x <- entries :: x.blocklen >= 1 && EntryEnd(x, e) == hi
  {
    hide Low, High, Counts, EntryEnd, ProperBlocks, SomeSolid;
    forall i | 0 <= i < |entries| ensures entries[i] in entries {}
    if x :| x in entries && x.blocklen >= 1 && EntryEnd(x, e) == hi {
      var i :| 0 <= i < |entries| && entries[i] == x;
      assert Counts(ms, i) && High(ms[i]) == lb + hi;
    }
  }

  lemma HIndexedParts(t: Datatype)
    requires t.HIndexed? && Positive(t)
    ensures (forall e <- t.entries :: e.blocklen >= 0) && exists e <- t.entries :: e.blocklen >= 1
  {}

  lemma EntriesProper(entries: seq<Entry>, ms: seq<Entries>)
    requires |ms| == |entries|
    requires forall i :: 0 <= i < |entries| ==>
      if entries[i].blocklen == 0 then ms[i] == NOTHING else Spans(ms[i]) && Solid(ms[i])
    ensures ProperBlocks(ms)
  {}

  /** hindexed bounds, zero-length blocks included: right if and only if nonempty blocks reach both. */
  lemma HIndexedExact(t: Datatype)
    requires t.HIndexed? && Positive(t) && ExtentRight(t.base)
    ensures ExtentRight(t) <==> HIndexedBoundsOk(t.entries, Extent(t.base))
    ensures BoundsRight(t) <==> HIndexedBoundsOk(t.entries, Extent(t.base)) && MpiLb(t.base) == 0
  {
    hide Meaning, Low, High, EntryEnd, HIndexedLb, HIndexedUb;
    var e := Extent(t.base);
    forall x | x in t.entries ensures Lb(t) <= x.displ && EntryEnd(x, e) <= Ub(t) {
      var i :| 0 <= i < |t.entries| && t.entries[i] == x;
      EntryWithinBounds(t.entries, e, i);
    }
    HIndexedMpi(t, Lb(t), Ub(t));
    MpiSpans(t);
  }

  lemma {:induction false} LaidEntries(entries: seq<Entry>, m: Entries)
    ensures Laid(EntryBlocks(entries, m)).bytes == EntriesMap(entries, m.bytes, Span(m))
  {
    if entries != [] {
      LaidEntries(entries[1..], m);
      assert EntryBlocks(entries, m)[1..] == EntryBlocks(entries[1..], m);
    }
  }

  lemma {:induction false} EntriesShow(entries: seq<Entry>, tm: seq<int>, a: int, b: int)
    requires tm != [] && forall x <- entries :: x.blocklen >= 0
    ensures EntriesMap(entries, tm, a) == EntriesMap(entries, tm, b)
       <==> a == b || forall x <- entries :: x.blocklen <= 1
  {
    if entries != [] {
      var f, rest := entries[0], entries[1..];
      EntriesShow(rest, tm, a, b);
      BlockPitchShows(tm, a, b, f.blocklen, f.displ);
      var u, v := Shift(Rep(tm, a, f.blocklen), f.displ), Shift(Rep(tm, b, f.blocklen), f.displ);
      var us, vs := EntriesMap(rest, tm, a), EntriesMap(rest, tm, b);
      if u + us == v + vs {
        assert u == (u + us)[..|u|] && v == (v + vs)[..|u|];
        assert us == (u + us)[|u|..] && vs == (v + vs)[|u|..];
      }
      assert forall x :: x in entries <==> x == f || x in rest;
    }
  }

  lemma BlockPitchShows(tm: seq<int>, a: int, b: int, n: int, d: int)
    requires tm != [] && n >= 0
    ensures |Shift(Rep(tm, a, n), d)| == |Shift(Rep(tm, b, n), d)|
    ensures Shift(Rep(tm, a, n), d) == Shift(Rep(tm, b, n), d) <==> n <= 1 || a == b
  {
    RepLength(tm, a, n); RepLength(tm, b, n);
    if n >= 1 { PitchShows(tm, a, b, n); }
    var x, y := Rep(tm, a, n), Rep(tm, b, n);
    if Shift(x, d) == Shift(y, d) {
      ShiftShift(x, d, -d); ShiftShift(y, d, -d);
      ShiftZero(x); ShiftZero(y);
    }
  }

  lemma HIndexedMapExact(t: Datatype)
    requires t.HIndexed? && Positive(t) && MapRight(t.base)
    ensures MapRight(t) <==> ExtentRight(t.base) || forall x <- t.entries :: x.blocklen <= 1
  {
    hide EntriesMap, Laid, Low, High;
    MpiSpans(t.base);
    HIndexedParts(t);
    LaidEntries(t.entries, Meaning(t.base));
    EntriesShow(t.entries, Map(t.base), Extent(t.base), MpiExtent(t.base));
  }

  // ----- structs -----

  /** A resized type somewhere below puts markers into the typemap. */
  predicate Marked(t: Datatype)
    decreases t, 0
  {
    match t
    case Primitive(_) => false
    case Struct(fields) => MarkedFields(fields)
    case Resized(_, _, _) => true
    case _ => Marked(t.base)
  }

  predicate MarkedFields(fields: seq<Field>)
    decreases fields, 0
  {
    if fields == [] then false
    else
      var f := fields[0];
      assert f.typ < f;
      (f.blocklen >= 1 && Marked(f.typ)) || MarkedFields(fields[1..])
  }

  /** The fields that determine MPI's bounds: nonempty, and marked if any is. */
  predicate FieldCounts(fields: seq<Field>, i: int)
    requires 0 <= i < |fields|
  {
    fields[i].blocklen >= 1 && (MarkedFields(fields) ==> Marked(fields[i].typ))
  }

  function FieldStart(f: Field): int { f.displ + MpiLb(f.typ) }
  function FieldFinish(f: Field): int { f.displ + MpiLb(f.typ) + f.blocklen * MpiExtent(f.typ) }

  /** The fields that count lie between lo and hi and reach both. */
  ghost predicate FieldsReach(fields: seq<Field>, lo: int, hi: int) {
    && (forall i :: 0 <= i < |fields| && FieldCounts(fields, i) ==>
          lo <= FieldStart(fields[i]) && FieldFinish(fields[i]) <= hi)
    && (exists i :: 0 <= i < |fields| && FieldCounts(fields, i) && FieldStart(fields[i]) == lo)
    && (exists i :: 0 <= i < |fields| && FieldCounts(fields, i) && FieldFinish(fields[i]) == hi)
  }

  lemma {:induction false} MarksAre(t: Datatype)
    requires Positive(t)
    ensures Meaning(t).lbs != [] <==> Marked(t)
    decreases t, 1
  {
    hide Low, High, Block, Laid, Rep;
    match t
    case Primitive(_) =>
    case Contiguous(count, base) =>
      MarksAre(base);
      RepEmpty(Meaning(base).lbs, MpiExtent(base), count);
    case Vector(count, blocklen, stride, base) =>
      MarksAre(base);
      RepEmpty(Meaning(base).lbs, MpiExtent(base), blocklen);
      RepEmpty(Rep(Meaning(base).lbs, MpiExtent(base), blocklen), stride * MpiExtent(base), count);
    case HVector(count, blocklen, stride, base) =>
      MarksAre(base);
      RepEmpty(Meaning(base).lbs, MpiExtent(base), blocklen);
      RepEmpty(Rep(Meaning(base).lbs, MpiExtent(base), blocklen), stride, count);
    case IndexedBlock(blocklen, displs, base) =>
      MarksAre(base);
      IndexedMarks(displs, blocklen, base);
    case HIndexed(entries, base) =>
      MarksAre(base);
      EntryMarks(entries, base);
    case Struct(fields) => FieldMarks(fields);
    case Resized(_, _, _) =>
  }

  lemma IndexedMarks(displs: seq<int>, blocklen: int, base: Datatype)
    requires Positive(base) && blocklen >= 1 && |displs| >= 1
    ensures Laid(IndexedBlocks(displs, blocklen, Meaning(base))).lbs != [] <==> Meaning(base).lbs != []
  {
    hide Low, High, Block, Laid, Spans, Meaning, Span;
    var m := Meaning(base);
    var ms := IndexedBlocks(displs, blocklen, m);
    MpiSpans(base);
    IndexedBlocksSpan(displs, blocklen, m);
    SpansProper(ms);
    LaidProper(ms);
    forall i | 0 <= i < |ms| ensures ms[i].lbs == [] <==> m.lbs == [] {
      SpansMark(m, blocklen, displs[i] * Span(m));
    }
    if m.lbs != [] { assert ms[0].lbs != []; }
  }

  lemma SpansMark(m: Entries, blocklen: int, d: int)
    requires Spans(m) && blocklen >= 0
    ensures Block(m, blocklen, d).lbs != [] <==> blocklen >= 1 && m.lbs != []
  {
    BlockBounds(m, blocklen, d);
  }

  lemma EntryMarks(entries: seq<Entry>, base: Datatype)
    requires Positive(base) && (forall e <- entries :: e.blocklen >= 0) && exists e <- entries :: e.blocklen >= 1
    ensures Laid(EntryBlocks(entries, Meaning(base))).lbs != [] <==> Meaning(base).lbs != []
  {
    hide Low, High, Block, Laid, Spans, Meaning, Span;
    var m := Meaning(base);
    var ms := EntryBlocks(entries, m);
    MpiSpans(base);
    EntryBlocksSpan(entries, m);
    EntriesProper(entries, ms);
    LaidProper(ms);
    forall i | 0 <= i < |ms| ensures ms[i].lbs != [] <==> entries[i].blocklen >= 1 && m.lbs != [] {
      assert entries[i] in entries;
      SpansMark(m, entries[i].blocklen, entries[i].displ);
    }
    var k :| 0 <= k < |entries| && entries[k].blocklen >= 1;
    if m.lbs != [] { assert ms[k].lbs != []; }
  }

  lemma {:induction false} FieldMarks(fields: seq<Field>)
    requires PositiveFields(fields)
    ensures Laid(FieldBlocks(fields)).lbs != [] <==> MarkedFields(fields)
    ensures forall i :: 0 <= i < |fields| ==> (Meaning(fields[i].typ).lbs != [] <==> Marked(fields[i].typ))
    decreases fields, 0
  {
    hide Low, High, Block, Spans, Meaning, Span;
    if fields != [] {
      var f := fields[0];
      assert f.typ < f;
      MarksAre(f.typ);
      MpiSpans(f.typ);
      SpansMark(Meaning(f.typ), f.blocklen, f.displ);
      FieldMarks(fields[1..]);
      assert FieldBlocks(fields)[1..] == FieldBlocks(fields[1..]);
      assert forall i :: 0 < i < |fields| ==> fields[i] == fields[1..][i - 1];
    }
  }

  lemma FieldBlockCounts(fields: seq<Field>, i: int)
    requires PositiveFields(fields) && 0 <= i < |fields|
    ensures |FieldBlocks(fields)| == |fields|
    ensures var ms := FieldBlocks(fields);
      && (Counts(ms, i) <==> FieldCounts(fields, i))
      && (Counts(ms, i) ==> Low(ms[i]) == FieldStart(fields[i]) && High(ms[i]) == FieldFinish(fields[i]))
  {
    hide Low, High, Block, Spans, Meaning;
    var ms := FieldBlocks(fields);
    FieldBlockAt(fields, i);
    PositiveField(fields, i);
    MpiSpans(fields[i].typ);
    BlockOfSpans(Meaning(fields[i].typ), fields[i].blocklen, fields[i].displ);
    FieldMarks(fields);
    SpansMark(Meaning(fields[i].typ), fields[i].blocklen, fields[i].displ);
    FieldsAnyMarked(fields);
  }

  lemma BlockOfSpans(m: Entries, blocklen: int, d: int)
    requires Spans(m) && blocklen >= 0
    ensures Solid(Block(m, blocklen, d)) <==> blocklen >= 1
    ensures blocklen >= 1 ==> Low(Block(m, blocklen, d)) == Low(m) + d
    ensures blocklen >= 1 ==> High(Block(m, blocklen, d)) == Low(m) + d + blocklen * Span(m)
  {
    BlockBounds(m, blocklen, d);
  }

  lemma FieldsAnyMarked(fields: seq<Field>)
    requires PositiveFields(fields)
    ensures AnyMarked(FieldBlocks(fields)) <==> MarkedFields(fields)
  {
    hide Low, High, Block, Spans, Meaning, Laid;
    FieldBlocksAre(fields);
    SomeFieldsProper(fields, FieldBlocks(fields));
    LaidNotEmpty(FieldBlocks(fields));
    FieldMarks(fields);
  }

  lemma SomeFieldsProper(fields: seq<Field>, ms: seq<Entries>)
    requires |ms| == |fields|
    requires forall i :: 0 <= i < |fields| ==>
      if fields[i].blocklen == 0 then ms[i] == NOTHING else Spans(ms[i]) && Solid(ms[i])
    ensures ProperBlocks(ms)
    ensures (exists i :: 0 <= i < |fields| && fields[i].blocklen >= 1) ==> SomeSolid(ms)
  {
    if i :| 0 <= i < |fields| && fields[i].blocklen >= 1 { assert Solid(ms[i]); }
  }

  /** MPI's bounds of a struct. */
  lemma StructMpi(t: Datatype, lo: int, hi: int)
    requires t.Struct? && Positive(t)
    ensures MpiLb(t) == lo && MpiUb(t) == hi <==> FieldsReach(t.fields, lo, hi)
  {
    hide Low, High, Block, Laid, Counts, Span, Spans, FieldCounts, FieldStart, FieldFinish, LowAt, HighAt;
    var fields := t.fields;
    var ms := FieldBlocks(fields);
    StructParts(t);
    FieldBlocksAre(fields);
    SomeFieldsProper(fields, ms);
    forall i | 0 <= i < |fields|
      ensures Counts(ms, i) <==> FieldCounts(fields, i)
      ensures Counts(ms, i) ==> Low(ms[i]) == FieldStart(fields[i]) && High(ms[i]) == FieldFinish(fields[i])
    {
      FieldBlockCounts(fields, i);
    }
    LaidLow(ms, lo);
    LaidHigh(ms, hi);
    ReachIsAt(fields, ms, lo, hi);
  }

  lemma ReachIsAt(fields: seq<Field>, ms: seq<Entries>, lo: int, hi: int)
    requires |ms| == |fields|
    requires forall i :: 0 <= i < |fields| ==>
      && (Counts(ms, i) <==> FieldCounts(fields, i))
      && (Counts(ms, i) ==> Low(ms[i]) == FieldStart(fields[i]) && High(ms[i]) == FieldFinish(fields[i]))
    ensures LowAt(ms, lo) && HighAt(ms, hi) <==> FieldsReach(fields, lo, hi)
  {
    hide Low, High, Counts, FieldCounts, FieldStart, FieldFinish;
  }

  lemma StructParts(t: Datatype)
    requires t.Struct? && Positive(t)
    ensures PositiveFields(t.fields) && exists i :: 0 <= i < |t.fields| && t.fields[i].blocklen >= 1
  {
    var f :| f in t.fields && f.blocklen >= 1;
    var i :| 0 <= i < |t.fields| && t.fields[i] == f;
  }

  /** Struct bounds, which start at zero and count empty fields: right if and only if the fields that determine
      MPI's reach both. */
  lemma StructExact(t: Datatype)
    requires t.Struct? && Positive(t)
    ensures BoundsRight(t) <==> FieldsReach(t.fields, StructLb(t.fields), StructUb(t.fields))
  {
    hide Meaning, Low, High, FieldsReach, StructLb, StructUb;
    StructMpi(t, Lb(t), Ub(t));
  }

  /** Where all fields start at zero and have the right extents, so is the extent. */
  lemma StructExtentExact(t: Datatype)
    requires t.Struct? && Positive(t)
    requires forall i :: 0 <= i < |t.fields| ==> MpiLb(t.fields[i].typ) == 0 && ExtentRight(t.fields[i].typ)
    ensures ExtentRight(t) <==> BoundsRight(t)
    ensures BoundsRight(t) <==>
      && (exists i :: 0 <= i < |t.fields| && FieldCounts(t.fields, i) && t.fields[i].displ == StructLb(t.fields))
      && (exists i :: 0 <= i < |t.fields| && FieldCounts(t.fields, i) && FieldEnd(t.fields[i]) == StructUb(t.fields))
  {
    hide Meaning, Low, High, FieldsReach, StructLb, StructUb, FieldCounts, Extent, MpiLb, MpiExtent, MpiUb;
    var fields, lo, hi := t.fields, StructLb(t.fields), StructUb(t.fields);
    StructExact(t);
    StructMpi(t, MpiLb(t), MpiUb(t));
    MpiSpans(t);
    StructReaches(t);
    forall i | 0 <= i < |fields|
      ensures lo <= FieldStart(fields[i]) == fields[i].displ && FieldFinish(fields[i]) == FieldEnd(fields[i]) <= hi
    {
      FieldWithinBounds(fields, i);
    }
    ReachedFrom(fields, lo, hi);
    ReachesInside(fields, lo, hi, MpiLb(t), MpiUb(t));
    StructExtent(t);
  }

  lemma StructExtent(t: Datatype)
    requires t.Struct?
    ensures Extent(t) == StructUb(t.fields) - StructLb(t.fields) && MpiExtent(t) == MpiUb(t) - MpiLb(t)
    ensures Lb(t) == StructLb(t.fields) && Ub(t) == StructUb(t.fields)
  {}

  lemma StructReaches(t: Datatype)
    requires t.Struct? && Positive(t)
    ensures FieldsReach(t.fields, MpiLb(t), MpiUb(t))
  {
    hide Meaning, Low, High, FieldsReach;
    StructMpi(t, MpiLb(t), MpiUb(t));
  }

  lemma ReachedFrom(fields: seq<Field>, lo: int, hi: int)
    requires forall i :: 0 <= i < |fields| ==>
      lo <= FieldStart(fields[i]) == fields[i].displ && FieldFinish(fields[i]) == FieldEnd(fields[i]) <= hi
    ensures FieldsReach(fields, lo, hi) <==>
      && (exists i :: 0 <= i < |fields| && FieldCounts(fields, i) && fields[i].displ == lo)
      && (exists i :: 0 <= i < |fields| && FieldCounts(fields, i) && FieldEnd(fields[i]) == hi)
  {
    hide FieldStart, FieldFinish, FieldCounts, FieldEnd;
  }

  lemma ReachesInside(fields: seq<Field>, lo: int, hi: int, a: int, b: int)
    requires forall i :: 0 <= i < |fields| ==> lo <= FieldStart(fields[i]) && FieldFinish(fields[i]) <= hi
    requires FieldsReach(fields, a, b)
    ensures lo <= a && b <= hi
  {
    hide FieldStart, FieldFinish, FieldCounts;
  }

  /** A block of a struct, right or at a wrong pitch. */
  lemma {:induction false} FieldsMapExact(fields: seq<Field>)
    requires PositiveFields(fields)
    requires forall i :: 0 <= i < |fields| && fields[i].blocklen >= 1 ==> MapRight(fields[i].typ)
    ensures FieldsMap(fields) == Laid(FieldBlocks(fields)).bytes
       <==> forall i :: 0 <= i < |fields| ==> fields[i].blocklen <= 1 || ExtentRight(fields[i].typ)
    decreases |fields|
  {
    hide Low, High, Rep, Meaning, Map, Extent, MpiExtent, Shift, Positive;
    if fields == [] {
    } else {
      var f, rest := fields[0], fields[1..];
      assert forall i :: 0 < i < |fields| ==> fields[i] == rest[i - 1];
      assert forall i :: 0 <= i < |rest| ==> rest[i] == fields[i + 1];
      FieldsMapExact(rest);
      PositiveField(fields, 0);
      MpiSpans(f.typ);
      var a, b := Extent(f.typ), MpiExtent(f.typ);
      var u, v := Shift(Rep(Map(f.typ), a, f.blocklen), f.displ), Shift(Rep(MpiMap(f.typ), b, f.blocklen), f.displ);
      var us, vs := FieldsMap(rest), Laid(FieldBlocks(rest)).bytes;
      FirstFieldBytes(fields);
      SameBlock(f, u, v, a, b);
      if u + us == v + vs {
        assert u == (u + us)[..|u|] && v == (v + vs)[..|v|];
        assert us == (u + us)[|u|..] && vs == (v + vs)[|v|..];
      }
    }
  }

  lemma FirstFieldBytes(fields: seq<Field>)
    requires fields != []
    ensures var f := fields[0];
      && FieldsMap(fields) == Shift(Rep(Map(f.typ), Extent(f.typ), f.blocklen), f.displ) + FieldsMap(fields[1..])
      && Laid(FieldBlocks(fields)).bytes == Shift(Rep(MpiMap(f.typ), MpiExtent(f.typ), f.blocklen), f.displ)
                                          + Laid(FieldBlocks(fields[1..])).bytes
  {
    hide Low, High, Rep, Meaning, Map, Extent, Shift;
    assert FieldBlocks(fields)[1..] == FieldBlocks(fields[1..]);
  }

  lemma SameBlock(f: Field, u: seq<int>, v: seq<int>, a: int, b: int)
    requires f.blocklen >= 0 && MpiMap(f.typ) != [] && (f.blocklen >= 1 ==> MapRight(f.typ))
    requires u == Shift(Rep(Map(f.typ), a, f.blocklen), f.displ)
    requires v == Shift(Rep(MpiMap(f.typ), b, f.blocklen), f.displ)
    ensures |u| == |v| && (u == v <==> f.blocklen <= 1 || a == b)
  {
    hide Low, High, Meaning, Map, Extent, Shift;
    if f.blocklen == 0 {
      RepEmpty(Map(f.typ), a, 0); RepEmpty(MpiMap(f.typ), b, 0);
      assert |Shift([], f.displ)| == 0 by { ShiftNothing(f.displ); }
    } else {
      BlockPitchShows(Map(f.typ), a, b, f.blocklen, f.displ);
    }
  }

  lemma ShiftNothing(d: int)
    ensures Shift([], d) == []
  {}

  lemma StructMapExact(t: Datatype)
    requires t.Struct? && Positive(t)
    requires forall i :: 0 <= i < |t.fields| && t.fields[i].blocklen >= 1 ==> MapRight(t.fields[i].typ)
    ensures MapRight(t) <==>
      forall i :: 0 <= i < |t.fields| ==> t.fields[i].blocklen <= 1 || ExtentRight(t.fields[i].typ)
  {
    hide MapRight, ExtentRight, FieldsMap, Laid;
    FieldsMapExact(t.fields);
    assert Map(t) == FieldsMap(t.fields) && MpiMap(t) == Laid(FieldBlocks(t.fields)).bytes;
    MapRightIs(t);
  }

  lemma MapRightIs(t: Datatype)
    ensures MapRight(t) <==> Map(t) == MpiMap(t)
  {}

  // ----- resized types -----

  /** A resized type has the bounds it is given, whatever its base stores. */
  lemma ResizedExact(t: Datatype)
    requires t.Resized? && Positive(t)
    ensures BoundsRight(t) && ExtentRight(t) && (MapRight(t) <==> MapRight(t.base))
  {
    MpiSpans(t.base);
    ResizedBounds(t.lb, t.extent, t.base);
    assert Extent(t) == t.extent;
  }
}
