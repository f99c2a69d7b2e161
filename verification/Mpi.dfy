/** The MPI typemap, written down without the numbers the constructors store (MPI 3.0, sections 4.1.6 and
    4.1.7).  A datatype denotes the offsets of its bytes in pack order, with the lower and upper bound markers
    that resized types put in; its bounds are the least and greatest marker or, where there is none, the least
    offset and the greatest plus one.  Every constructor replicates all of it at the extent so defined.
    Padding to an alignment, which MPI leaves to the implementation, is none. */
module Mpi {
  import opened Arithmetic
  import opened Datatypes
  import opened Typemap
  import opened Wellformed
  import opened Bounds

  datatype Entries = Entries(bytes: seq<int>, lbs: seq<int>, ubs: seq<int>)

  const NOTHING := Entries([], [], [])

  function Least(xs: seq<int>): int
    requires xs != []
  {
    MinFrom(xs[0], xs)
  }

  function Greatest(xs: seq<int>): int
    requires xs != []
  {
    MaxFrom(xs[0], xs)
  }

  /** The offsets that determine the lower bound, and the ends that determine the upper. */
  function Lows(m: Entries): seq<int> { if m.lbs != [] then m.lbs else m.bytes }
  function Highs(m: Entries): seq<int> { if m.ubs != [] then m.ubs else Shift(m.bytes, 1) }

  function Low(m: Entries): int { if Lows(m) == [] then 0 else Least(Lows(m)) }
  function High(m: Entries): int { if Highs(m) == [] then 0 else Greatest(Highs(m)) }
  function Span(m: Entries): int { High(m) - Low(m) }

  function Moved(m: Entries, d: int): Entries { Entries(Shift(m.bytes, d), Shift(m.lbs, d), Shift(m.ubs, d)) }

  function Repeated(m: Entries, step: int, n: int): Entries {
    Entries(Rep(m.bytes, step, n), Rep(m.lbs, step, n), Rep(m.ubs, step, n))
  }

  function Joined(a: Entries, b: Entries): Entries { Entries(a.bytes + b.bytes, a.lbs + b.lbs, a.ubs + b.ubs) }

  /** One after the other. */
  function Laid(ms: seq<Entries>): Entries {
    if ms == [] then NOTHING else Joined(ms[0], Laid(ms[1..]))
  }

  function Block(m: Entries, blocklen: int, d: int): Entries { Moved(Repeated(m, Span(m), blocklen), d) }

  function Meaning(t: Datatype): Entries
    decreases t, 0
  {
    match t
    case Primitive(p) => Entries(seq(PrimitiveSize(p), i => i), [], [])
    case Contiguous(count, base) => Repeated(Meaning(base), MpiExtent(base), count)
    case Vector(count, blocklen, stride, base) =>
      Repeated(Repeated(Meaning(base), MpiExtent(base), blocklen), stride * MpiExtent(base), count)
    case HVector(count, blocklen, stride, base) =>
      Repeated(Repeated(Meaning(base), MpiExtent(base), blocklen), stride, count)
    case IndexedBlock(blocklen, displs, base) => Laid(IndexedBlocks(displs, blocklen, Meaning(base)))
    case HIndexed(entries, base) => Laid(EntryBlocks(entries, Meaning(base)))
    case Struct(fields) => Laid(FieldBlocks(fields))
    case Resized(lb, extent, base) => Entries(Meaning(base).bytes, [lb], [lb + extent])
  }

  function MpiLb(t: Datatype): int decreases t, 1 { Low(Meaning(t)) }
  function MpiUb(t: Datatype): int decreases t, 1 { High(Meaning(t)) }
  function MpiExtent(t: Datatype): int decreases t, 1 { Span(Meaning(t)) }

  /** Displacements count extents. */
  function IndexedBlocks(displs: seq<int>, blocklen: int, m: Entries): seq<Entries> {
    seq(|displs|, i requires 0 <= i < |displs| => Block(m, blocklen, displs[i] * Span(m)))
  }

  function EntryBlocks(entries: seq<Entry>, m: Entries): seq<Entries> {
    seq(|entries|, i requires 0 <= i < |entries| => Block(m, entries[i].blocklen, entries[i].displ))
  }

  function FieldBlocks(fields: seq<Field>): seq<Entries>
    decreases fields, 0
  {
    if fields == [] then []
    else
      var f := fields[0];
      assert f.typ < f;
      [Block(Meaning(f.typ), f.blocklen, f.displ)] + FieldBlocks(fields[1..])
  }

  function MpiMap(t: Datatype): seq<int> { Meaning(t).bytes }

  /** The bytes of n consecutive items. */
  function MpiCopies(t: Datatype, n: int): seq<int> { Rep(MpiMap(t), MpiExtent(t), n) }

  // ----- least and greatest elements -----

  ghost predicate IsLeast(xs: seq<int>, x: int) { x in xs && forall y :: y in xs ==> x <= y }
  ghost predicate IsGreatest(xs: seq<int>, x: int) { x in xs && forall y :: y in xs ==> y <= x }

  lemma LeastIs(xs: seq<int>, x: int)
    requires xs != []
    ensures Least(xs) == x <==> IsLeast(xs, x)
  {
    MinFromIsLeast(xs[0], xs);
  }

  lemma GreatestIs(xs: seq<int>, x: int)
    requires xs != []
    ensures Greatest(xs) == x <==> IsGreatest(xs, x)
  {
    MaxFromIsGreatest(xs[0], xs);
  }

  lemma RepLeast(xs: seq<int>, step: int, n: int, x: int)
    requires IsLeast(xs, x) && step >= 0 && n >= 1
    ensures IsLeast(Rep(xs, step, n), x)
  {
    var i :| 0 <= i < |xs| && xs[i] == x;
    RepAt(xs, step, n, 0, i);
    forall y | y in Rep(xs, step, n) ensures x <= y {
      var k, j := RepMember(xs, step, n, y);
      assert xs[j] in xs;
      MulNonNegative(k, step);
    }
  }

  lemma RepGreatest(xs: seq<int>, step: int, n: int, x: int)
    requires IsGreatest(xs, x) && step >= 0 && n >= 1
    ensures IsGreatest(Rep(xs, step, n), x + step * (n - 1))
  {
    var i :| 0 <= i < |xs| && xs[i] == x;
    RepAt(xs, step, n, n - 1, i);
    ScaledSteps(step, n - 1, n - 1);
    var last := step * (n - 1);
    assert (n - 1) * step == last;
    forall y | y in Rep(xs, step, n) ensures y <= x + last { RepAtMost(xs, step, n, x, y); }
  }

  lemma RepAtMost(xs: seq<int>, step: int, n: int, x: int, y: int)
    requires IsGreatest(xs, x) && step >= 0 && y in Rep(xs, step, n)
    ensures y <= x + step * (n - 1)
  {
    hide Rep;
    var k, j := RepMember(xs, step, n, y);
    assert xs[j] in xs;
    ScaledSteps(step, k, n - 1);
  }

  lemma ScaledSteps(step: int, k: int, m: int)
    requires step >= 0 && k <= m
    ensures k * step <= step * m
  {
    MulNonNegative(m - k, step);
    MulDistributes(m, k, step);
  }

  lemma ShiftMember(xs: seq<int>, d: int, y: int)
    ensures y in Shift(xs, d) <==> y - d in xs
  {
    if y in Shift(xs, d) { var i :| 0 <= i < |xs| && Shift(xs, d)[i] == y; assert xs[i] == y - d; }
    if y - d in xs { var i :| 0 <= i < |xs| && xs[i] == y - d; assert Shift(xs, d)[i] == y; }
  }

  lemma {:induction false} RepShift(xs: seq<int>, step: int, n: int, d: int)
    ensures Rep(Shift(xs, d), step, n) == Shift(Rep(xs, step, n), d)
    decreases n
  {
    if n > 0 {
      RepShift(xs, step, n - 1, d);
      ShiftConcat(xs, Shift(Rep(xs, step, n - 1), step), d);
      ShiftShift(Rep(xs, step, n - 1), step, d);
      ShiftShift(Rep(xs, step, n - 1), d, step);
    }
  }

  // ----- bounds of what the constructors build -----

  /** There are bytes, and markers come in pairs. */
  ghost predicate Proper(m: Entries) {
    m.bytes != [] && (m.lbs == [] <==> m.ubs == [])
  }

  lemma RepEmpty(xs: seq<int>, step: int, n: int)
    ensures n >= 1 ==> (Rep(xs, step, n) == [] <==> xs == [])
    ensures n <= 0 ==> Rep(xs, step, n) == []
  {
    if n >= 1 {
      RepLength(xs, step, n);
      if xs != [] { MulPositive(n, |xs|); }
    }
  }

  lemma RepeatedBounds(m: Entries, step: int, n: int)
    requires Proper(m) && step >= 0 && n >= 1
    ensures Proper(Repeated(m, step, n)) && (Repeated(m, step, n).lbs == [] <==> m.lbs == [])
    ensures Low(Repeated(m, step, n)) == Low(m) && High(Repeated(m, step, n)) == High(m) + step * (n - 1)
  {
    hide Rep, Least, Greatest, IsLeast, IsGreatest;
    var r := Repeated(m, step, n);
    RepEmpty(m.bytes, step, n); RepEmpty(m.lbs, step, n); RepEmpty(m.ubs, step, n);
    RepShift(m.bytes, step, n, 1);
    assert Lows(r) == Rep(Lows(m), step, n) && Highs(r) == Rep(Highs(m), step, n);
    LeastIs(Lows(m), Low(m));
    GreatestIs(Highs(m), High(m));
    RepLeast(Lows(m), step, n, Low(m));
    RepGreatest(Highs(m), step, n, High(m));
    LeastIs(Lows(r), Low(m));
    GreatestIs(Highs(r), High(m) + step * (n - 1));
  }

  lemma ShiftLeast(xs: seq<int>, x: int, d: int)
    ensures IsLeast(xs, x) ==> IsLeast(Shift(xs, d), x + d)
    ensures IsGreatest(xs, x) ==> IsGreatest(Shift(xs, d), x + d)
  {
    ShiftMember(xs, d, x + d);
    forall y | y in Shift(xs, d) ensures y - d in xs { ShiftMember(xs, d, y); }
  }

  lemma MovedBounds(m: Entries, d: int)
    requires Proper(m)
    ensures Proper(Moved(m, d)) && (Moved(m, d).lbs == [] <==> m.lbs == [])
    ensures Low(Moved(m, d)) == Low(m) + d && High(Moved(m, d)) == High(m) + d
  {
    hide Least, Greatest, IsLeast, IsGreatest;
    var r := Moved(m, d);
    ShiftShift(m.bytes, d, 1); ShiftShift(m.bytes, 1, d);
    assert Lows(r) == Shift(Lows(m), d) && Highs(r) == Shift(Highs(m), d);
    LeastIs(Lows(m), Low(m));
    GreatestIs(Highs(m), High(m));
    ShiftLeast(Lows(m), Low(m), d);
    ShiftLeast(Highs(m), High(m), d);
    LeastIs(Lows(r), Low(m) + d);
    GreatestIs(Highs(r), High(m) + d);
  }

  lemma BlockBounds(m: Entries, blocklen: int, d: int)
    requires Proper(m) && Low(m) < High(m) && blocklen >= 0
    ensures blocklen == 0 ==> Block(m, blocklen, d) == NOTHING
    ensures blocklen >= 1 ==> Proper(Block(m, blocklen, d)) && (Block(m, blocklen, d).lbs == [] <==> m.lbs == [])
    ensures blocklen >= 1 ==> Low(Block(m, blocklen, d)) == Low(m) + d
    ensures blocklen >= 1 ==> High(Block(m, blocklen, d)) == Low(m) + d + blocklen * Span(m)
  {
    hide Low, High;
    if blocklen >= 1 {
      RepeatedBounds(m, Span(m), blocklen);
      MovedBounds(Repeated(m, Span(m), blocklen), d);
      MulDistributes(blocklen, 1, Span(m));
      assert Span(m) * (blocklen - 1) == (blocklen - 1) * Span(m);
    }
  }

  // ----- laying blocks out -----

  predicate Solid(m: Entries) { m.bytes != [] }

  predicate AnyMarked(ms: seq<Entries>) { exists i :: 0 <= i < |ms| && ms[i].lbs != [] }

  /** The blocks that determine the bounds: the marked ones, if there is any. */
  predicate Counts(ms: seq<Entries>, i: int)
    requires 0 <= i < |ms|
  {
    Solid(ms[i]) && (AnyMarked(ms) ==> ms[i].lbs != [])
  }

  /** Each block is empty or proper. */
  ghost predicate ProperBlocks(ms: seq<Entries>) {
    forall i :: 0 <= i < |ms| ==> ms[i] == NOTHING || Proper(ms[i])
  }

  lemma {:induction false} LaidMember(ms: seq<Entries>, y: int)
    ensures y in Laid(ms).bytes <==> exists i :: 0 <= i < |ms| && y in ms[i].bytes
    ensures y in Laid(ms).lbs <==> exists i :: 0 <= i < |ms| && y in ms[i].lbs
    ensures y in Laid(ms).ubs <==> exists i :: 0 <= i < |ms| && y in ms[i].ubs
  {
    if ms != [] {
      LaidMember(ms[1..], y);
      assert forall i :: 0 < i < |ms| ==> ms[i] == ms[1..][i - 1];
      assert forall i :: 0 <= i < |ms[1..]| ==> ms[1..][i] == ms[i + 1];
    }
  }

  lemma {:induction false} LaidNotEmpty(ms: seq<Entries>)
    requires ProperBlocks(ms)
    ensures Laid(ms).lbs != [] <==> AnyMarked(ms)
    ensures Laid(ms).ubs != [] <==> AnyMarked(ms)
    ensures Laid(ms).bytes != [] <==> exists i :: 0 <= i < |ms| && Solid(ms[i])
  {
    if ms != [] {
      LaidNotEmpty(ms[1..]);
      assert forall i :: 0 < i < |ms| ==> ms[i] == ms[1..][i - 1];
      assert forall i :: 0 <= i < |ms[1..]| ==> ms[1..][i] == ms[i + 1];
    }
  }

  /** The bounds of blocks are those of the blocks that count. */
  lemma LaidLows(ms: seq<Entries>, y: int)
    requires ProperBlocks(ms)
    ensures y in Lows(Laid(ms)) <==> exists i :: 0 <= i < |ms| && Counts(ms, i) && y in Lows(ms[i])
  {
    hide AnyMarked, Laid;
    LaidNotEmpty(ms);
    LaidMember(ms, y);
    forall i | 0 <= i < |ms| ensures ms[i].lbs != [] ==> AnyMarked(ms) && Counts(ms, i) {
      if ms[i].lbs != [] { MarkedBlock(ms, i); }
    }
    forall i | 0 <= i < |ms| ensures Counts(ms, i) && y in Lows(ms[i]) ==> y in Lows(Laid(ms)) {}
    if y in Lows(Laid(ms)) {
      if AnyMarked(ms) {
        var i :| 0 <= i < |ms| && y in ms[i].lbs;
        assert Counts(ms, i) && y in Lows(ms[i]);
      } else {
        var i :| 0 <= i < |ms| && y in ms[i].bytes;
        assert Counts(ms, i) && y in Lows(ms[i]);
      }
    }
  }

  lemma LaidHighs(ms: seq<Entries>, y: int)
    requires ProperBlocks(ms)
    ensures y in Highs(Laid(ms)) <==> exists i :: 0 <= i < |ms| && Counts(ms, i) && y in Highs(ms[i])
  {
    hide Laid, Highs, Counts, ProperBlocks;
    if AnyMarked(ms) { MarkedHighs(ms, y); } else { UnmarkedHighs(ms, y); }
  }

  lemma MarkedHighs(ms: seq<Entries>, y: int)
    requires ProperBlocks(ms) && AnyMarked(ms)
    ensures y in Highs(Laid(ms)) <==> exists i :: 0 <= i < |ms| && Counts(ms, i) && y in Highs(ms[i])
  {
    hide AnyMarked, Laid, Shift;
    LaidNotEmpty(ms);
    LaidMember(ms, y);
    forall i | 0 <= i < |ms| ensures y in ms[i].ubs <==> Counts(ms, i) && y in Highs(ms[i]) {
      assert ms[i] == NOTHING || Proper(ms[i]);
    }
    if i :| 0 <= i < |ms| && y in ms[i].ubs { assert Counts(ms, i); }
  }

  lemma UnmarkedHighs(ms: seq<Entries>, y: int)
    requires ProperBlocks(ms) && !AnyMarked(ms)
    ensures y in Highs(Laid(ms)) <==> exists i :: 0 <= i < |ms| && Counts(ms, i) && y in Highs(ms[i])
  {
    hide *;
    UnmarkedEnds(ms, y);
    LaidMember(ms, y - 1);
    forall i | 0 <= i < |ms| ensures y - 1 in ms[i].bytes <==> Counts(ms, i) && y in Highs(ms[i]) {
      UnmarkedBlock(ms, i, y);
    }
    if i :| 0 <= i < |ms| && y - 1 in ms[i].bytes { assert Counts(ms, i); }
  }

  lemma UnmarkedEnds(ms: seq<Entries>, y: int)
    requires ProperBlocks(ms) && !AnyMarked(ms)
    ensures y in Highs(Laid(ms)) <==> y - 1 in Laid(ms).bytes
  {
    hide Laid, Shift, AnyMarked, ProperBlocks;
    LaidNotEmpty(ms);
    ShiftMember(Laid(ms).bytes, 1, y);
  }

  lemma UnmarkedBlock(ms: seq<Entries>, i: int, y: int)
    requires ProperBlocks(ms) && !AnyMarked(ms) && 0 <= i < |ms|
    ensures y - 1 in ms[i].bytes <==> Counts(ms, i) && y in Highs(ms[i])
  {
    hide Laid, Shift;
    assert ms[i] == NOTHING || Proper(ms[i]);
    ShiftMember(ms[i].bytes, 1, y);
  }

  lemma MarkedBlock(ms: seq<Entries>, i: int)
    requires 0 <= i < |ms| && ms[i].lbs != []
    ensures AnyMarked(ms)
  {}

  ghost predicate LowAt(ms: seq<Entries>, lo: int) {
    && (forall i :: 0 <= i < |ms| && Counts(ms, i) ==> lo <= Low(ms[i]))
    && (exists i :: 0 <= i < |ms| && Counts(ms, i) && Low(ms[i]) == lo)
  }

  ghost predicate HighAt(ms: seq<Entries>, hi: int) {
    && (forall i :: 0 <= i < |ms| && Counts(ms, i) ==> High(ms[i]) <= hi)
    && (exists i :: 0 <= i < |ms| && Counts(ms, i) && High(ms[i]) == hi)
  }

  ghost predicate SomeSolid(ms: seq<Entries>) { exists i :: 0 <= i < |ms| && Solid(ms[i]) }

  lemma LowOf(m: Entries)
    requires Proper(m)
    ensures IsLeast(Lows(m), Low(m)) && IsGreatest(Highs(m), High(m))
  {
    LeastIs(Lows(m), Low(m));
    GreatestIs(Highs(m), High(m));
  }

  lemma LaidLow(ms: seq<Entries>, lo: int)
    requires ProperBlocks(ms) && SomeSolid(ms)
    ensures Proper(Laid(ms)) && (Laid(ms).lbs == [] <==> !AnyMarked(ms))
    ensures Low(Laid(ms)) == lo <==> LowAt(ms, lo)
  {
    hide Laid, Least, Greatest, Lows, Highs, AnyMarked, Low, High, Counts;
    LaidProper(ms);
    LowIsLeast(Laid(ms), lo);
    forall i | 0 <= i < |ms| && Counts(ms, i) ensures IsLeast(Lows(ms[i]), Low(ms[i])) { CountsProper(ms, i); }
    forall y ensures y in Lows(Laid(ms)) <==> exists i :: 0 <= i < |ms| && Counts(ms, i) && y in Lows(ms[i]) {
      LaidLows(ms, y);
    }
    if IsLeast(Lows(Laid(ms)), lo) {
      var i :| 0 <= i < |ms| && Counts(ms, i) && lo in Lows(ms[i]);
      forall j | 0 <= j < |ms| && Counts(ms, j) ensures lo <= Low(ms[j]) {
        LaidLows(ms, Low(ms[j]));
      }
      assert Low(ms[i]) == lo;
    }
    if LowAt(ms, lo) {
      var i :| 0 <= i < |ms| && Counts(ms, i) && Low(ms[i]) == lo;
      assert lo in Lows(ms[i]);
      forall y | y in Lows(Laid(ms)) ensures lo <= y {
        var j :| 0 <= j < |ms| && Counts(ms, j) && y in Lows(ms[j]);
      }
    }
  }

  lemma LaidHigh(ms: seq<Entries>, hi: int)
    requires ProperBlocks(ms) && SomeSolid(ms)
    ensures High(Laid(ms)) == hi <==> HighAt(ms, hi)
  {
    hide Laid, Least, Greatest, Lows, Highs, AnyMarked, Low, High, Counts;
    LaidProper(ms);
    HighIsGreatest(Laid(ms), hi);
    forall i | 0 <= i < |ms| && Counts(ms, i) ensures IsGreatest(Highs(ms[i]), High(ms[i])) { CountsProper(ms, i); }
    forall y ensures y in Highs(Laid(ms)) <==> exists i :: 0 <= i < |ms| && Counts(ms, i) && y in Highs(ms[i]) {
      LaidHighs(ms, y);
    }
    if IsGreatest(Highs(Laid(ms)), hi) {
      var i :| 0 <= i < |ms| && Counts(ms, i) && hi in Highs(ms[i]);
      forall j | 0 <= j < |ms| && Counts(ms, j) ensures High(ms[j]) <= hi {
        LaidHighs(ms, High(ms[j]));
      }
      assert High(ms[i]) == hi;
    }
    if HighAt(ms, hi) {
      var i :| 0 <= i < |ms| && Counts(ms, i) && High(ms[i]) == hi;
      assert hi in Highs(ms[i]);
      forall y | y in Highs(Laid(ms)) ensures y <= hi {
        var j :| 0 <= j < |ms| && Counts(ms, j) && y in Highs(ms[j]);
      }
    }
  }

  lemma LaidProper(ms: seq<Entries>)
    requires ProperBlocks(ms) && SomeSolid(ms)
    ensures Proper(Laid(ms)) && (Laid(ms).lbs == [] <==> !AnyMarked(ms))
  {
    LaidNotEmpty(ms);
  }

  lemma LowIsLeast(m: Entries, lo: int)
    requires Proper(m)
    ensures Low(m) == lo <==> IsLeast(Lows(m), lo)
  {
    LeastIs(Lows(m), lo);
  }

  lemma HighIsGreatest(m: Entries, hi: int)
    requires Proper(m)
    ensures High(m) == hi <==> IsGreatest(Highs(m), hi)
  {
    GreatestIs(Highs(m), hi);
  }

  lemma CountsProper(ms: seq<Entries>, i: int)
    requires ProperBlocks(ms) && 0 <= i < |ms| && Counts(ms, i)
    ensures Proper(ms[i]) && IsLeast(Lows(ms[i]), Low(ms[i])) && IsGreatest(Highs(ms[i]), High(ms[i]))
  {
    LowOf(ms[i]);
  }

  /** A block that counts, if any is not empty. */
  lemma SomeCounts(ms: seq<Entries>) returns (i: int)
    requires ProperBlocks(ms) && SomeSolid(ms)
    ensures 0 <= i < |ms| && Counts(ms, i)
  {
    if AnyMarked(ms) {
      i :| 0 <= i < |ms| && ms[i].lbs != [];
    } else {
      i :| 0 <= i < |ms| && Solid(ms[i]);
    }
  }

  /** Blocks of positive span have positive span together. */
  lemma LaidSpan(ms: seq<Entries>)
    requires ProperBlocks(ms) && SomeSolid(ms)
    requires forall i :: 0 <= i < |ms| && Solid(ms[i]) ==> Low(ms[i]) < High(ms[i])
    ensures Proper(Laid(ms)) && Low(Laid(ms)) < High(Laid(ms))
  {
    hide Low, High, Laid;
    LaidLow(ms, Low(Laid(ms)));
    LaidHigh(ms, High(Laid(ms)));
    var i := SomeCounts(ms);
  }

  lemma {:induction false} FieldBlockAt(fields: seq<Field>, i: int)
    requires 0 <= i < |fields|
    ensures |FieldBlocks(fields)| == |fields|
    ensures fields[i].typ < fields[i]
    ensures FieldBlocks(fields)[i] == Block(Meaning(fields[i].typ), fields[i].blocklen, fields[i].displ)
  {
    if |fields| == 1 { assert FieldBlocks(fields[1..]) == []; }
    if i > 0 { FieldBlockAt(fields[1..], i - 1); } else if |fields| > 1 { FieldBlockAt(fields[1..], 0); }
  }

  // ----- every well-formed tree has bounds, a positive extent apart -----

  ghost predicate Spans(m: Entries) { Proper(m) && Low(m) < High(m) }

  lemma BlocksSpan(ms: seq<Entries>)
    requires SomeSolid(ms) && forall i :: 0 <= i < |ms| ==> ms[i] == NOTHING || Spans(ms[i])
    ensures Spans(Laid(ms))
  {
    hide Low, High, Laid, Lows, Highs;
    LaidSpan(ms);
  }

  lemma BlockSpans(m: Entries, blocklen: int, d: int)
    requires Spans(m) && blocklen >= 0
    ensures if blocklen == 0 then Block(m, blocklen, d) == NOTHING
            else Spans(Block(m, blocklen, d)) && Solid(Block(m, blocklen, d))
  {
    hide Low, High;
    BlockBounds(m, blocklen, d);
    if blocklen >= 1 { MulPositive(blocklen, Span(m)); }
  }

  lemma {:induction false} MeaningSpans(t: Datatype)
    requires Positive(t)
    ensures Spans(Meaning(t))
    decreases t, 1
  {
    match t
    case Primitive(p) =>
      LowsOfRun(PrimitiveSize(p));
    case Contiguous(count, base) =>
      MeaningSpans(base);
      RepeatSpans(Meaning(base), MpiExtent(base), count);
    case Vector(count, blocklen, stride, base) =>
      MeaningSpans(base);
      RepeatSpans(Meaning(base), MpiExtent(base), blocklen);
      MulNonNegative(stride, MpiExtent(base));
      RepeatSpans(Repeated(Meaning(base), MpiExtent(base), blocklen), stride * MpiExtent(base), count);
    case HVector(count, blocklen, stride, base) =>
      MeaningSpans(base);
      RepeatSpans(Meaning(base), MpiExtent(base), blocklen);
      RepeatSpans(Repeated(Meaning(base), MpiExtent(base), blocklen), stride, count);
    case IndexedBlock(blocklen, displs, base) =>
      MeaningSpans(base);
      IndexedBlocksSpan(displs, blocklen, Meaning(base));
    case HIndexed(entries, base) =>
      MeaningSpans(base);
      EntryBlocksSpan(entries, Meaning(base));
    case Struct(fields) => FieldBlocksSpan(fields);
    case Resized(lb, extent, base) =>
      MeaningSpans(base);
      ResizedBounds(lb, extent, base);
  }

  /** A run of n bytes. */
  lemma LowsOfRun(n: int)
    requires n >= 1
    ensures var m := Entries(seq(n, i => i), [], []);
      Spans(m) && Low(m) == 0 && High(m) == n
  {
    var xs := seq(n, i => i);
    var m := Entries(xs, [], []);
    assert xs[0] == 0 && xs[n - 1] == n - 1;
    assert Shift(xs, 1)[n - 1] == n;
    LeastIs(Lows(m), 0);
    GreatestIs(Highs(m), n);
  }

  lemma RepeatSpans(m: Entries, step: int, n: int)
    requires Spans(m) && step >= 0 && n >= 1
    ensures Spans(Repeated(m, step, n))
    ensures Low(Repeated(m, step, n)) == Low(m) && High(Repeated(m, step, n)) == High(m) + step * (n - 1)
    ensures Repeated(m, step, n).lbs == [] <==> m.lbs == []
  {
    hide Low, High;
    RepeatedBounds(m, step, n);
    MulNonNegative(step, n - 1);
  }

  lemma ResizedBounds(lb: int, extent: int, base: Datatype)
    requires Proper(Meaning(base)) && extent >= 1
    ensures var t := Resized(lb, extent, base);
      Spans(Meaning(t)) && MpiLb(t) == lb && MpiUb(t) == lb + extent
  {
    LeastIs([lb], lb);
    GreatestIs([lb + extent], lb + extent);
  }

  lemma IndexedBlocksSpan(displs: seq<int>, blocklen: int, m: Entries)
    requires Spans(m) && blocklen >= 1 && |displs| >= 1
    ensures Spans(Laid(IndexedBlocks(displs, blocklen, m)))
    ensures forall i :: 0 <= i < |displs| ==> Spans(IndexedBlocks(displs, blocklen, m)[i])
  {
    hide Spans, Block, Solid;
    var ms := IndexedBlocks(displs, blocklen, m);
    forall i | 0 <= i < |ms| ensures Spans(ms[i]) && Solid(ms[i]) {
      BlockSpans(m, blocklen, displs[i] * Span(m));
    }
    assert Solid(ms[0]);
    BlocksSpan(ms);
  }

  lemma EntryBlocksSpan(entries: seq<Entry>, m: Entries)
    requires Spans(m) && (forall e <- entries :: e.blocklen >= 0) && exists e <- entries :: e.blocklen >= 1
    ensures Spans(Laid(EntryBlocks(entries, m)))
    ensures forall i :: 0 <= i < |entries| ==>
      if entries[i].blocklen == 0 then EntryBlocks(entries, m)[i] == NOTHING
      else Spans(EntryBlocks(entries, m)[i]) && Solid(EntryBlocks(entries, m)[i])
    ensures SomeSolid(EntryBlocks(entries, m))
  {
    hide Spans, Block, Solid;
    var ms := EntryBlocks(entries, m);
    forall i | 0 <= i < |ms|
      ensures if entries[i].blocklen == 0 then ms[i] == NOTHING else Spans(ms[i]) && Solid(ms[i])
    {
      assert entries[i] in entries;
      BlockSpans(m, entries[i].blocklen, entries[i].displ);
    }
    var k :| 0 <= k < |entries| && entries[k].blocklen >= 1;
    assert Solid(ms[k]);
    BlocksSpan(ms);
  }

  lemma {:induction false} FieldBlocksSpan(fields: seq<Field>)
    requires PositiveFields(fields) && exists f <- fields :: f.blocklen >= 1
    ensures Spans(Laid(FieldBlocks(fields)))
    decreases fields, 1
  {
    hide Spans, Block, Solid, Laid;
    var ms := FieldBlocks(fields);
    FieldBlocksAre(fields);
    var k :| 0 <= k < |fields| && fields[k].blocklen >= 1;
    assert Solid(ms[k]);
    BlocksSpan(ms);
  }

  lemma {:induction false} FieldBlocksAre(fields: seq<Field>)
    requires PositiveFields(fields)
    ensures |FieldBlocks(fields)| == |fields|
    ensures forall i :: 0 <= i < |fields| ==>
      if fields[i].blocklen == 0 then FieldBlocks(fields)[i] == NOTHING
      else Spans(FieldBlocks(fields)[i]) && Solid(FieldBlocks(fields)[i])
    decreases fields, 0
  {
    hide Spans, Block, Solid;
    if fields != [] {
      var f := fields[0];
      assert f.typ < f;
      MeaningSpans(f.typ);
      BlockSpans(Meaning(f.typ), f.blocklen, f.displ);
      FieldBlocksAre(fields[1..]);
      forall i | 0 <= i < |fields|
        ensures if fields[i].blocklen == 0 then FieldBlocks(fields)[i] == NOTHING
                else Spans(FieldBlocks(fields)[i]) && Solid(FieldBlocks(fields)[i])
      {
        if i > 0 { assert fields[i] == fields[1..][i - 1]; }
      }
    }
  }
}
