/** What a user of the compiled functions sees: packing gathers, unpacking scatters, and the two undo
    each other. */
module RoundTrip {
  import opened Arithmetic
  import opened Datatypes
  import opened Typemap
  import opened Wellformed
  import opened Bounds
  import opened Mpi
  import opened MpiBounds
  import opened MpiTrees
  import opened Compression
  import opened Machine
  import opened Transfers
  import opened Support
  import opened Compilation

  /** out[p] == in[tm[p]] for every p, and no other byte of memory changes. */
  ghost predicate Gathered(tm: seq<int>, mem: Memory, mem': Memory, inbuf: int, outbuf: int) {
    && mem'.Keys == mem.Keys
    && (forall p :: 0 <= p < |tm| ==> Addr(outbuf, p) in mem && Addr(inbuf, tm[p]) in mem)
    && (forall p :: 0 <= p < |tm| ==> mem'[Addr(outbuf, p)] == mem[Addr(inbuf, tm[p])])
    && (forall a :: a in mem && (forall p :: 0 <= p < |tm| ==> a != Addr(outbuf, p)) ==> mem'[a] == mem[a])
  }

  /** p is the last position of the typemap that hits its address. */
  ghost predicate Last(tm: seq<int>, outbuf: int, p: int) {
    && 0 <= p < |tm|
    && forall q :: p < q < |tm| ==> Addr(outbuf, tm[q]) != Addr(outbuf, tm[p])
  }

  /** out[tm[p]] == in[p] for every p that is not overwritten later, and no other byte changes. */
  ghost predicate Scattered(tm: seq<int>, mem: Memory, mem': Memory, inbuf: int, outbuf: int) {
    && mem'.Keys == mem.Keys
    && (forall p :: 0 <= p < |tm| ==> Addr(inbuf, p) in mem && Addr(outbuf, tm[p]) in mem)
    && (forall p :: Last(tm, outbuf, p) ==> mem'[Addr(outbuf, tm[p])] == mem[Addr(inbuf, p)])
    && (forall a :: a in mem && (forall p :: 0 <= p < |tm| ==> a != Addr(outbuf, tm[p])) ==> mem'[a] == mem[a])
  }

  lemma PackGathers(tm: seq<int>, mem: Memory, inbuf: int, outbuf: int)
    requires |tm| <= W && Ready(mem, Moves(true, tm, inbuf, outbuf))
    ensures Gathered(tm, mem, Copy(mem, Moves(true, tm, inbuf, outbuf)), inbuf, outbuf)
  {
    var ts := Moves(true, tm, inbuf, outbuf);
    CopyKeepsKeys(mem, ts);
    assert forall p :: 0 <= p < |tm| ==> ts[p] == Transfer(Addr(outbuf, p), Addr(inbuf, tm[p]));
    forall p | 0 <= p < |tm| ensures Copy(mem, ts)[Addr(outbuf, p)] == mem[Addr(inbuf, tm[p])] {
      var w := Writer(ts, ts[p].dst);
      CopyEffect(mem, ts, ts[p].dst);
      WrapInjective(outbuf, p, w);
    }
    forall a | a in mem && (forall p :: 0 <= p < |tm| ==> a != Addr(outbuf, p)) ensures Copy(mem, ts)[a] == mem[a] {
      CopyEffect(mem, ts, a);
    }
  }

  lemma UnpackScatters(tm: seq<int>, mem: Memory, inbuf: int, outbuf: int)
    requires Ready(mem, Moves(false, tm, inbuf, outbuf))
    ensures Scattered(tm, mem, Copy(mem, Moves(false, tm, inbuf, outbuf)), inbuf, outbuf)
  {
    var ts := Moves(false, tm, inbuf, outbuf);
    CopyKeepsKeys(mem, ts);
    assert forall p :: 0 <= p < |tm| ==> ts[p] == Transfer(Addr(outbuf, tm[p]), Addr(inbuf, p));
    forall p | Last(tm, outbuf, p) ensures Copy(mem, ts)[Addr(outbuf, tm[p])] == mem[Addr(inbuf, p)] {
      CopyEffect(mem, ts, ts[p].dst);
      assert Writer(ts, ts[p].dst) == p;
    }
    forall a | a in mem && (forall p :: 0 <= p < |tm| ==> a != Addr(outbuf, tm[p])) ensures Copy(mem, ts)[a] == mem[a] {
      CopyEffect(mem, ts, a);
    }
  }

  // ----- the compiled functions -----

  lemma PackedBytesFit(t: Datatype, n: int)
    requires Positive(t) && Fits(t) && Sized(t) && 0 <= n < W32
    ensures |Copies(t, n)| == n * Size(t) && n * Size(t) <= W && n * Extent(t) <= W
  {
    hide Copies;
    SizedLength(t, n);
    SizeAndExtentPositive(t);
    BelowProduct(n, Size(t));
    BelowProduct(n, Extent(t));
  }

  lemma BelowProduct(n: int, x: int)
    requires 0 <= n < W32 && 0 <= x <= INT32_MAX
    ensures n * x <= W
  {
    MulNonNegative(W32 - n, x);
    assert W32 * x <= W;
  }

  /** The compiled pack function gathers, through the typemap of the stored extents. */
  lemma StoredPackGathers(t: Datatype, mem: Memory, data: int, n: int, packed: int) returns (mem': Memory)
    requires Compilable(t, true) && |Copies(t, n)| <= W && Callable(t, true, mem, data, n, packed)
    ensures Reaches(Compile(t, true), Call(mem, data, n, packed), Returned(mem'))
    ensures Gathered(Copies(t, n), mem, mem', data, packed)
  {
    hide Copy, Moves, Ready, Compilable, Gathered, Copies;
    mem' := Copy(mem, Moves(true, Copies(t, n), data, packed));
    CompiledFunctionPerforms(t, true, mem, data, n, packed);
    PackGathers(Copies(t, n), mem, data, packed);
  }

  /** The compiled unpack function scatters. */
  lemma StoredUnpackScatters(t: Datatype, mem: Memory, packed: int, n: int, data: int) returns (mem': Memory)
    requires Compilable(t, false) && Callable(t, false, mem, packed, n, data)
    ensures Reaches(Compile(t, false), Call(mem, packed, n, data), Returned(mem'))
    ensures Scattered(Copies(t, n), mem, mem', packed, data)
  {
    hide Copy, Moves, Ready, Compilable, Scattered, Copies;
    mem' := Copy(mem, Moves(false, Copies(t, n), packed, data));
    CompiledFunctionPerforms(t, false, mem, packed, n, data);
    UnpackScatters(Copies(t, n), mem, packed, data);
  }

  // ----- unpack after pack -----

  /** The last position that hits the same address as p. */
  lemma {:induction false} LastHit(tm: seq<int>, at: int, p: int) returns (q: int)
    requires 0 <= p < |tm|
    ensures Last(tm, at, q) && Addr(at, tm[q]) == Addr(at, tm[p])
    decreases |tm| - p
  {
    if r :| p < r < |tm| && Addr(at, tm[r]) == Addr(at, tm[p]) {
      q := LastHit(tm, at, r);
    } else {
      q := p;
    }
  }

  /** Addresses that agree from one base agree from every base. */
  lemma SameOffset(x: int, y: int, a: int, b: int)
    requires Addr(x, a) == Addr(x, b)
    ensures Addr(y, a) == Addr(y, b)
  {
    var k, l := (x + a) / W, (x + b) / W;
    assert a - b == (k - l) * W;
    assert y + a == y + b + (k - l) * W;
    WrapPeriod(y + b, k - l);
  }

  lemma {:induction false} WrapPeriod(x: int, k: int)
    ensures Wrap(x + k * W) == Wrap(x)
    decreases if k < 0 then -k else k
  {
    if k > 0 {
      WrapPeriod(x, k - 1);
      assert x + k * W == (x + (k - 1) * W) + W;
    } else if k < 0 {
      WrapPeriod(x, k + 1);
      assert x + k * W == (x + (k + 1) * W) - W;
    }
  }

  /** The bytes of the typemap at `copy` are those at `data`; only they and the packed buffer changed. */
  ghost predicate Restored(tm: seq<int>, mem: Memory, mem': Memory, data: int, packed: int, copy: int) {
    && (forall p :: 0 <= p < |tm| ==> Addr(data, tm[p]) in mem && Addr(copy, tm[p]) in mem')
    && (forall p :: 0 <= p < |tm| ==> mem'[Addr(copy, tm[p])] == mem[Addr(data, tm[p])])
    && mem'.Keys == mem.Keys
    && (forall a :: a in mem && (forall p :: 0 <= p < |tm| ==> a != Addr(packed, p) && a != Addr(copy, tm[p])) ==>
          mem'[a] == mem[a])
  }

  lemma ScatterAfterGather(tm: seq<int>, mem: Memory, mem1: Memory, mem2: Memory, data: int, packed: int, copy: int)
    requires Gathered(tm, mem, mem1, data, packed) && Scattered(tm, mem1, mem2, packed, copy)
    ensures Restored(tm, mem, mem2, data, packed, copy)
  {
    forall p | 0 <= p < |tm| ensures mem2[Addr(copy, tm[p])] == mem[Addr(data, tm[p])] {
      var q := LastHit(tm, copy, p);
      assert mem2[Addr(copy, tm[q])] == mem1[Addr(packed, q)] == mem[Addr(data, tm[q])];
      SameOffset(copy, data, tm[q], tm[p]);
    }
  }

  /** unpack(pack(x)) restores every byte of the typemap, into any buffer, repeated offsets or not,
      and leaves everything else alone. */
  lemma StoredUnpackUndoesPack(t: Datatype, mem: Memory, data: int, n: int, packed: int, copy: int)
    returns (mem1: Memory, mem2: Memory)
    requires Compilable(t, true) && Compilable(t, false) && |Copies(t, n)| <= W
    requires Callable(t, true, mem, data, n, packed) && Callable(t, false, mem, packed, n, copy)
    ensures Reaches(Compile(t, true), Call(mem, data, n, packed), Returned(mem1))
    ensures Reaches(Compile(t, false), Call(mem1, packed, n, copy), Returned(mem2))
    ensures Restored(Copies(t, n), mem, mem2, data, packed, copy)
  {
    hide Compilable, Copies, Compile, Reaches;
    mem1 := StoredPackGathers(t, mem, data, n, packed);
    StillCallable(t, false, mem, mem1, packed, n, copy);
    mem2 := StoredUnpackScatters(t, mem1, packed, n, copy);
    ScatterAfterGather(Copies(t, n), mem, mem1, mem2, data, packed, copy);
  }

  /** Whether a call is legal depends on which addresses are mapped, not on their contents. */
  lemma StillCallable(t: Datatype, pack: bool, mem: Memory, mem': Memory, inbuf: int, n: int, outbuf: int)
    requires Callable(t, pack, mem, inbuf, n, outbuf) && mem'.Keys == mem.Keys
    ensures Callable(t, pack, mem', inbuf, n, outbuf)
  {}

  // ----- pack after unpack -----

  /** Positions that share an address hold the same byte. */
  ghost predicate Consistent(tm: seq<int>, mem: Memory, packed: int, data: int) {
    forall p, q | 0 <= p < |tm| && 0 <= q < |tm| && Addr(packed, p) in mem && Addr(packed, q) in mem ::
      Addr(data, tm[p]) == Addr(data, tm[q]) ==> mem[Addr(packed, p)] == mem[Addr(packed, q)]
  }

  lemma GatherAfterScatter(tm: seq<int>, mem: Memory, mem1: Memory, mem2: Memory, packed: int, data: int, again: int)
    requires Scattered(tm, mem, mem1, packed, data) && Gathered(tm, mem1, mem2, data, again)
    ensures (forall p :: 0 <= p < |tm| ==> mem2[Addr(again, p)] == mem[Addr(packed, p)])
       <==> Consistent(tm, mem, packed, data)
  {
    if Consistent(tm, mem, packed, data) {
      forall p | 0 <= p < |tm| ensures mem2[Addr(again, p)] == mem[Addr(packed, p)] {
        var q := LastHit(tm, data, p);
        assert mem2[Addr(again, p)] == mem1[Addr(data, tm[p])] == mem[Addr(packed, q)];
      }
    } else {
      var p, q :| 0 <= p < |tm| && 0 <= q < |tm| && Addr(data, tm[p]) == Addr(data, tm[q])
        && mem[Addr(packed, p)] != mem[Addr(packed, q)];
      assert mem2[Addr(again, p)] == mem1[Addr(data, tm[p])] == mem2[Addr(again, q)];
    }
  }

  /** No two positions share an address. */
  ghost predicate Separate(tm: seq<int>, at: int) {
    forall p, q :: 0 <= p < q < |tm| ==> Addr(at, tm[p]) != Addr(at, tm[q])
  }

  /** pack(unpack(y)) == y exactly when positions that share an address hold equal bytes; in
      particular whenever no address is shared. */
  lemma StoredPackUndoesUnpack(t: Datatype, mem: Memory, packed: int, n: int, data: int, again: int)
    returns (mem1: Memory, mem2: Memory)
    requires Compilable(t, true) && Compilable(t, false) && |Copies(t, n)| <= W
    requires Callable(t, false, mem, packed, n, data) && Callable(t, true, mem, data, n, again)
    ensures Reaches(Compile(t, false), Call(mem, packed, n, data), Returned(mem1))
    ensures Reaches(Compile(t, true), Call(mem1, data, n, again), Returned(mem2))
    ensures var tm := Copies(t, n);
      forall p :: 0 <= p < |tm| ==> Addr(packed, p) in mem && Addr(again, p) in mem2
    ensures var tm := Copies(t, n);
      (forall p :: 0 <= p < |tm| ==> mem2[Addr(again, p)] == mem[Addr(packed, p)])
      <==> Consistent(tm, mem, packed, data)
    ensures Separate(Copies(t, n), data) ==> Consistent(Copies(t, n), mem, packed, data)
  {
    hide Compilable, Copies, Compile, Reaches;
    mem1 := StoredUnpackScatters(t, mem, packed, n, data);
    StillCallable(t, true, mem, mem1, data, n, again);
    mem2 := StoredPackGathers(t, mem1, data, n, again);
    GatherAfterScatter(Copies(t, n), mem, mem1, mem2, packed, data, again);
  }

  // ----- in terms of MPI's typemap -----

  /** Where the stored bounds meet MPI's, the compiled pack function gathers MPI's typemap. */
  lemma CompiledPackGathers(t: Datatype, mem: Memory, data: int, n: int, packed: int) returns (mem': Memory)
    requires Compilable(t, true) && MpiMet(t, n) && |MpiCopies(t, n)| <= W
    requires MpiCallable(t, true, mem, data, n, packed)
    ensures Reaches(Compile(t, true), Call(mem, data, n, packed), Returned(mem'))
    ensures Gathered(MpiCopies(t, n), mem, mem', data, packed)
  {
    hide Good, Positive, Fits, MpiMet, Copies, MpiCopies, MpiCallable, Callable, Passable, Gathered, Compile;
    CallIsPassable(t, true, mem, data, n, packed);
    MpiCalls(t, true, mem, data, n, packed);
    mem' := StoredPackGathers(t, mem, data, n, packed);
  }

  lemma CallIsPassable(t: Datatype, pack: bool, mem: Memory, inbuf: int, n: int, outbuf: int)
    requires MpiCallable(t, pack, mem, inbuf, n, outbuf)
    ensures Passable(t, inbuf, n, outbuf)
  {}

  /** And the unpack function scatters it. */
  lemma CompiledUnpackScatters(t: Datatype, mem: Memory, packed: int, n: int, data: int) returns (mem': Memory)
    requires Compilable(t, false) && MpiMet(t, n) && MpiCallable(t, false, mem, packed, n, data)
    ensures Reaches(Compile(t, false), Call(mem, packed, n, data), Returned(mem'))
    ensures Scattered(MpiCopies(t, n), mem, mem', packed, data)
  {
    hide Good, Positive, Fits, MpiMet, Copies, MpiCopies, MpiCallable, Callable, Passable, Scattered, Compile;
    CallIsPassable(t, false, mem, packed, n, data);
    MpiCalls(t, false, mem, packed, n, data);
    mem' := StoredUnpackScatters(t, mem, packed, n, data);
  }

  /** unpack(pack(x)) restores every byte of MPI's typemap. */
  lemma UnpackUndoesPack(t: Datatype, mem: Memory, data: int, n: int, packed: int, copy: int)
    returns (mem1: Memory, mem2: Memory)
    requires Compilable(t, true) && Compilable(t, false) && MpiMet(t, n) && |MpiCopies(t, n)| <= W
    requires MpiCallable(t, true, mem, data, n, packed) && MpiCallable(t, false, mem, packed, n, copy)
    ensures Reaches(Compile(t, true), Call(mem, data, n, packed), Returned(mem1))
    ensures Reaches(Compile(t, false), Call(mem1, packed, n, copy), Returned(mem2))
    ensures Restored(MpiCopies(t, n), mem, mem2, data, packed, copy)
  {
    hide Good, Positive, Fits, MpiMet, Copies, MpiCopies, MpiCallable, Callable, Passable, Restored, Compile;
    CallIsPassable(t, true, mem, data, n, packed);
    CallIsPassable(t, false, mem, packed, n, copy);
    MpiCalls(t, true, mem, data, n, packed);
    MpiCalls(t, false, mem, packed, n, copy);
    mem1, mem2 := StoredUnpackUndoesPack(t, mem, data, n, packed, copy);
  }

  /** pack(unpack(y)) == y exactly when positions that share an address hold equal bytes. */
  lemma PackUndoesUnpack(t: Datatype, mem: Memory, packed: int, n: int, data: int, again: int)
    returns (mem1: Memory, mem2: Memory)
    requires Compilable(t, true) && Compilable(t, false) && MpiMet(t, n) && |MpiCopies(t, n)| <= W
    requires MpiCallable(t, false, mem, packed, n, data) && MpiCallable(t, true, mem, data, n, again)
    ensures Reaches(Compile(t, false), Call(mem, packed, n, data), Returned(mem1))
    ensures Reaches(Compile(t, true), Call(mem1, data, n, again), Returned(mem2))
    ensures var tm := MpiCopies(t, n);
      forall p :: 0 <= p < |tm| ==> Addr(packed, p) in mem && Addr(again, p) in mem2
    ensures var tm := MpiCopies(t, n);
      (forall p :: 0 <= p < |tm| ==> mem2[Addr(again, p)] == mem[Addr(packed, p)])
      <==> Consistent(tm, mem, packed, data)
    ensures Separate(MpiCopies(t, n), data) ==> Consistent(MpiCopies(t, n), mem, packed, data)
  {
    hide Good, Positive, Fits, MpiMet, Copies, MpiCopies, MpiCallable, Callable, Passable, Compile, Consistent,
         Separate;
    CallIsPassable(t, false, mem, packed, n, data);
    CallIsPassable(t, true, mem, data, n, again);
    MpiCalls(t, false, mem, packed, n, data);
    MpiCalls(t, true, mem, data, n, again);
    mem1, mem2 := StoredPackUndoesUnpack(t, mem, packed, n, data, again);
  }

  /** Any number of items of a non-overlapping tree has no shared address, so its round trip is exact
      for every packed buffer. */
  lemma NonOverlappingIsSeparate(t: Datatype, n: int, at: int)
    requires Positive(t) && Fits(t) && Plain(t) && NonOverlapping(t) && Sized(t) && 1 <= n < W32
    ensures Separate(Copies(t, n), at)
  {
    hide *;
    CopiesDistinct(t, n);
    PackReadsWithin(t, n);
    PackedBytesFit(t, n);
    WindowIsExtents(t, n);
    DistinctInWindow(Copies(t, n), at, Lb(t), Ub(t) + Extent(t) * (n - 1));
  }

  lemma DistinctInWindow(tm: seq<int>, at: int, lo: int, hi: int)
    requires Distinct(tm) && Within(tm, lo, hi) && hi - lo <= W
    ensures Separate(tm, at)
  {
    forall p, q | 0 <= p < q < |tm| ensures Addr(at, tm[p]) != Addr(at, tm[q]) {
      if Addr(at, tm[p]) == Addr(at, tm[q]) {
        WrapInjective(at + lo, tm[p] - lo, tm[q] - lo);
      }
    }
  }

  lemma WindowIsExtents(t: Datatype, n: int)
    ensures Ub(t) + Extent(t) * (n - 1) - Lb(t) == n * Extent(t)
  {
    MulDistributes(n, 1, Extent(t));
  }

  /** The data side and the packed side of a call. */
  function InBuffer(pack: bool, data: int, packed: int): int { if pack then data else packed }
  function OutBuffer(pack: bool, data: int, packed: int): int { if pack then packed else data }

  /** A window of the data is mapped, so are `bytes` packed bytes, and they lie apart. */
  ghost predicate Apart(mem: Memory, data: int, lo: int, hi: int, packed: int, bytes: int) {
    && (forall x :: lo <= x < hi ==> Addr(data, x) in mem)
    && (forall k :: 0 <= k < bytes ==> Addr(packed, k) in mem)
    && (forall x, k :: lo <= x < hi && 0 <= k < bytes ==> Addr(data, x) != Addr(packed, k))
  }

  /** A caller of a pack or unpack function who maps [lb, (n-1) * extent + ub) of the data, and n * size
      bytes that lie apart from it, makes a legal call. */
  lemma WindowsSuffice(t: Datatype, pack: bool, mem: Memory, data: int, n: int, packed: int)
    requires Positive(t) && Fits(t) && Sized(t) && Plain(t) && 1 <= n < W32
    requires 0 <= data < W && 0 <= packed < W
    requires Apart(mem, data, Lb(t), Ub(t) + Extent(t) * (n - 1), packed, n * Size(t))
    ensures Callable(t, pack, mem, InBuffer(pack, data, packed), n, OutBuffer(pack, data, packed))
  {
    hide *;
    PackReadsWithin(t, n);
    PackedBytesFit(t, n);
    ReadyFromWindows(pack, Copies(t, n), mem, data, packed, Lb(t), Ub(t) + Extent(t) * (n - 1));
    LegalCall(t, pack, mem, data, n, packed);
  }

  lemma LegalCall(t: Datatype, pack: bool, mem: Memory, data: int, n: int, packed: int)
    requires 1 <= n < W32 && 0 <= data < W && 0 <= packed < W
    requires Ready(mem, Moves(pack, Copies(t, n), InBuffer(pack, data, packed), OutBuffer(pack, data, packed)))
    ensures Callable(t, pack, mem, InBuffer(pack, data, packed), n, OutBuffer(pack, data, packed))
  {
    hide Ready, Moves, Copies;
  }

  /** The same for MPI's window, for every tree without resized nodes whose bounds meet MPI's. */
  lemma MpiWindowsSuffice(t: Datatype, pack: bool, mem: Memory, data: int, n: int, packed: int)
    requires Positive(t) && !Marked(t) && MpiMet(t, n) && 1 <= n < W32
    requires 0 <= data < W && 0 <= packed < W
    requires Apart(mem, data, MpiLb(t), MpiUb(t) + MpiExtent(t) * (n - 1), packed, |MpiCopies(t, n)|)
    ensures MpiCallable(t, pack, mem, InBuffer(pack, data, packed), n, OutBuffer(pack, data, packed))
    ensures Callable(t, pack, mem, InBuffer(pack, data, packed), n, OutBuffer(pack, data, packed))
  {
    hide *;
    MpiReadsWithin(t, n);
    ReadyFromWindows(pack, MpiCopies(t, n), mem, data, packed, MpiLb(t), MpiUb(t) + MpiExtent(t) * (n - 1));
    MpiMetIsRight(t, n);
    LegalCall(t, pack, mem, data, n, packed);
    CallParts(t, pack, mem, InBuffer(pack, data, packed), n, OutBuffer(pack, data, packed));
    MpiCalls(t, pack, mem, InBuffer(pack, data, packed), n, OutBuffer(pack, data, packed));
  }

  lemma CallParts(t: Datatype, pack: bool, mem: Memory, inbuf: int, n: int, outbuf: int)
    requires Callable(t, pack, mem, inbuf, n, outbuf)
    ensures Passable(t, inbuf, n, outbuf)
  {}

  lemma ReadyFromWindows(pack: bool, tm: seq<int>, mem: Memory, data: int, packed: int, lo: int, hi: int)
    requires Within(tm, lo, hi) && Apart(mem, data, lo, hi, packed, |tm|)
    ensures Ready(mem, Moves(pack, tm, InBuffer(pack, data, packed), OutBuffer(pack, data, packed)))
  {
    var ts := Moves(pack, tm, InBuffer(pack, data, packed), OutBuffer(pack, data, packed));
    assert forall p :: 0 <= p < |tm| ==>
      ts[p] == if pack then Transfer(Addr(packed, p), Addr(data, tm[p]))
               else Transfer(Addr(data, tm[p]), Addr(packed, p));
  }

  // ----- primitives, byte by byte -----

  /** n primitives are the bytes 0, 1, 2, ... of their total length. */
  lemma PrimitiveBytes(p: PrimitiveType, size: int, pack: bool, n: nat, inbuf: int, outbuf: int)
    requires size == if p == BYTE || p == CHAR then 1 else if p == DOUBLE then 8 else 4
    ensures n * size >= 0 && Copies(Primitive(p), n) == Iota(n * size)
    ensures Moves(pack, Copies(Primitive(p), n), inbuf, outbuf) == Moves(true, Iota(n * size), inbuf, outbuf)
  {
    assert Map(Primitive(p)) == Iota(size);
    RepIota(size, n);
  }

  lemma PrimitiveCompilable(p: PrimitiveType, pack: bool)
    ensures Compilable(Primitive(p), pack)
  {}

  /** COMPILED CODE OF THE PRIMITIVE TYPES, to pack and to unpack: n BYTEs or CHARs are n bytes, n INTs or FLOATs 4n and
      n DOUBLEs 8n, copied in order, and no other byte is written. */
  lemma CompiledPrimitive(p: PrimitiveType, size: int, pack: bool, mem: Memory, inbuf: int, n: nat, outbuf: int)
    returns (mem': Memory)
    requires size == if p == BYTE || p == CHAR then 1 else if p == DOUBLE then 8 else 4
    requires 0 <= inbuf < W && 0 <= outbuf < W && n < W32
    requires forall i :: 0 <= i < n * size ==> Addr(inbuf, i) in mem && Addr(outbuf, i) in mem
    requires forall i, j :: 0 <= i < n * size && 0 <= j < n * size ==> Addr(outbuf, i) != Addr(inbuf, j)
    ensures Reaches(Compile(Primitive(p), pack), Call(mem, inbuf, n, outbuf), Returned(mem'))
    ensures mem'.Keys == mem.Keys
    ensures forall i :: 0 <= i < n * size ==> mem'[Addr(outbuf, i)] == mem[Addr(inbuf, i)]
    ensures forall a <- mem :: (forall i :: 0 <= i < n * size ==> a != Addr(outbuf, i)) ==> mem'[a] == mem[a]
  {
    hide Copies, Compile, Reaches, Moves, Compilable;
    PrimitiveBytes(p, size, pack, n, inbuf, outbuf);
    PrimitiveCompilable(p, pack);
    PrimitiveLength(n, size);
    IotaReady(mem, n * size, inbuf, outbuf);
    CompiledFunctionPerforms(Primitive(p), pack, mem, inbuf, n, outbuf);
    mem' := Copy(mem, Moves(true, Iota(n * size), inbuf, outbuf));
    PackGathers(Iota(n * size), mem, inbuf, outbuf);
    GatheredRun(n * size, mem, mem', inbuf, outbuf);
  }

  lemma PrimitiveLength(n: nat, size: int)
    requires n < W32 && 1 <= size <= 8
    ensures 0 <= n * size <= W
  {
    BelowProduct(n, size);
    MulNonNegative(n, size);
  }

  lemma IotaReady(mem: Memory, len: nat, inbuf: int, outbuf: int)
    requires forall i :: 0 <= i < len ==> Addr(inbuf, i) in mem && Addr(outbuf, i) in mem
    requires forall i, j :: 0 <= i < len && 0 <= j < len ==> Addr(outbuf, i) != Addr(inbuf, j)
    ensures Ready(mem, Moves(true, Iota(len), inbuf, outbuf))
  {}

  lemma GatheredRun(len: nat, mem: Memory, mem': Memory, inbuf: int, outbuf: int)
    requires Gathered(Iota(len), mem, mem', inbuf, outbuf)
    ensures mem'.Keys == mem.Keys
    ensures forall i :: 0 <= i < len ==> Addr(outbuf, i) in mem && Addr(inbuf, i) in mem
    ensures forall i :: 0 <= i < len ==> mem'[Addr(outbuf, i)] == mem[Addr(inbuf, i)]
    ensures forall a <- mem :: (forall i :: 0 <= i < len ==> a != Addr(outbuf, i)) ==> mem'[a] == mem[a]
  {
    forall i | 0 <= i < len
      ensures Addr(outbuf, i) in mem && Addr(inbuf, i) in mem && mem'[Addr(outbuf, i)] == mem[Addr(inbuf, i)]
    {
      assert Iota(len)[i] == i;
    }
  }
}
