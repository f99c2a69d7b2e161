/** Emission composes.  A builder is Closed when every block but the insertion block is terminated,
    every branch goes to an existing block, and every phi has exactly one entry for each block that
    branches to it.  Every generator keeps this, whatever blocks the code of its base consists of. */
module Structure {
  import opened Datatypes
  import opened Typemap
  import opened Machine
  import opened Builders
  import opened Emission
  import opened Compression
  import opened ExecTable
  import opened ExecTypes
  import opened Compilation

  predicate Goes(t: Terminator, id: nat) {
    match t
    case Br(target) => target == id
    case CondBr(_, yes, no) => yes == id || no == id
    case _ => false
  }

  /** One entry for each predecessor of block id, and no other. */
  predicate PhiExact(blocks: seq<Block>, id: nat, incoming: seq<Incoming>) {
    && (forall k :: 0 <= k < |blocks| ==> (HasSource(incoming, k) <==> Goes(blocks[k].term, id)))
    && (forall i :: 0 <= i < |incoming| ==> incoming[i].from < |blocks|)
    && (forall i, j :: 0 <= i < j < |incoming| ==> incoming[i].from != incoming[j].from)
  }

  predicate PhisExact(blocks: seq<Block>, id: nat)
    requires id < |blocks|
  {
    forall j :: 0 <= j < |blocks[id].phis| ==> PhiExact(blocks, id, blocks[id].phis[j].incoming)
  }

  ghost predicate TargetsExist(blocks: seq<Block>) {
    forall id, target: nat :: 0 <= id < |blocks| && Goes(blocks[id].term, target) ==> target < |blocks|
  }

  ghost predicate Closed(b: Builder) {
    && Ok(b) && TargetsExist(b.blocks)
    && (forall id :: 0 <= id < |b.blocks| && id != b.cur ==> b.blocks[id].term != Open)
    && (forall id :: 0 <= id < |b.blocks| ==> PhisExact(b.blocks, id))
  }

  /** A complete function: nothing is left open. */
  ghost predicate Complete(p: seq<Block>) {
    && TargetsExist(p)
    && (forall id :: 0 <= id < |p| ==> p[id].term != Open)
    && (forall id :: 0 <= id < |p| ==> PhisExact(p, id))
  }

  /** A complete function whose branches are followed never meets a phi without an entry. */
  lemma CompletePhisHaveSources(p: seq<Block>, from: nat, target: nat)
    requires Complete(p) && from < |p| && Goes(p[from].term, target)
    ensures target < |p| && forall j :: 0 <= j < |p[target].phis| ==> HasSource(p[target].phis[j].incoming, from)
  {
    assert PhisExact(p, target);
    forall j | 0 <= j < |p[target].phis| ensures HasSource(p[target].phis[j].incoming, from) {
      assert PhiExact(p, target, p[target].phis[j].incoming);
    }
  }

  /** The branch that a run takes. */
  function Taken(t: Terminator, regs: Registers): nat
    requires t.Br? || (t.CondBr? && Def(regs, t.cond))
  {
    if t.Br? then t.target else if Ev(regs, t.cond) != 0 then t.yes else t.no
  }

  /** So in a complete function a branch fails only on an undefined register, never on the shape of the graph. */
  lemma BranchFailsExact(p: seq<Block>, c: Conf, from: nat)
    requires Complete(p) && from < |p|
    requires p[from].term.Br? || (p[from].term.CondBr? && Def(c.regs, p[from].term.cond))
    ensures var target := Taken(p[from].term, c.regs);
      && target < |p| && (forall j :: 0 <= j < |p[target].phis| ==> HasSource(p[target].phis[j].incoming, from))
      && (Step(p, Running(c, from, |p[from].instrs|)) == Stuck
          <==> exists j :: 0 <= j < |p[target].phis| && !Def(c.regs, Source(p[target].phis[j].incoming, from)))
  {
    hide Complete;
    CompletePhisHaveSources(p, from, Taken(p[from].term, c.regs));
  }

  // ----- the builder operations -----

  lemma AppendClosed(b: Builder, i: Instr)
    requires Closed(b)
    ensures Closed(Append(b, i))
  {
    var r := Append(b, i);
    assert forall k :: 0 <= k < |b.blocks| ==>
      r.blocks[k].term == b.blocks[k].term && r.blocks[k].phis == b.blocks[k].phis;
    forall id | 0 <= id < |r.blocks| ensures PhisExact(r.blocks, id) {
      assert PhisExact(b.blocks, id);
      forall j | 0 <= j < |r.blocks[id].phis| ensures PhiExact(r.blocks, id, r.blocks[id].phis[j].incoming) {
        assert PhiExact(b.blocks, id, b.blocks[id].phis[j].incoming);
      }
    }
    assert TargetsExist(b.blocks);
  }

  lemma BindClosed(b: Builder, e: Expr)
    requires Closed(b)
    ensures Closed(Bind(b, e))
  {
    AppendClosed(b, Let(b.next, e));
    assert Bind(b, e).blocks == Append(b, Let(b.next, e)).blocks;
  }

  lemma StartLoopClosed(b: Builder, inits: seq<Operand>)
    requires Closed(b)
    ensures Closed(StartLoop(b, inits))
  {
    var r := StartLoop(b, inits);
    var n := |b.blocks|;
    assert TargetsExist(b.blocks) && r.blocks[b.cur].term == Br(n);
    assert forall k :: 0 <= k < n && k != b.cur ==> r.blocks[k] == b.blocks[k];
    forall id | 0 <= id < |r.blocks| ensures PhisExact(r.blocks, id) {
      forall j | 0 <= j < |r.blocks[id].phis| ensures PhiExact(r.blocks, id, r.blocks[id].phis[j].incoming) {
        if id < n {
          assert PhisExact(b.blocks, id) && r.blocks[id].phis == b.blocks[id].phis;
          assert PhiExact(b.blocks, id, b.blocks[id].phis[j].incoming);
        } else {
          assert r.blocks[id].phis[j].incoming == [Incoming(inits[j], b.cur)];
        }
      }
    }
  }

  /** The exit test: the latch recorded in the phis must be the block the branch is in. */
  lemma EndLoopClosed(b: Builder, loop: nat, cond: Operand, nexts: seq<Operand>)
    requires Closed(b) && CanEndLoop(b, loop, nexts)
    ensures Closed(EndLoop(b, loop, b.cur, cond, nexts))
  {
    var r := EndLoop(b, loop, b.cur, cond, nexts);
    var n := |b.blocks|;
    assert TargetsExist(b.blocks) && r.blocks[b.cur].term == CondBr(cond, n, loop) && r.blocks[n].term == Open;
    assert forall k :: 0 <= k < n && k != b.cur ==> r.blocks[k].term == b.blocks[k].term;
    forall id | 0 <= id < |r.blocks| ensures PhisExact(r.blocks, id) {
      forall j | 0 <= j < |r.blocks[id].phis| ensures PhiExact(r.blocks, id, r.blocks[id].phis[j].incoming) {
        assert id < n && PhisExact(b.blocks, id);
        var old_incoming := b.blocks[id].phis[j].incoming;
        assert PhiExact(b.blocks, id, old_incoming);
        if id == loop {
          LatchAdded(b, r, loop, old_incoming, Incoming(nexts[j], b.cur));
        } else {
          assert r.blocks[id].phis[j].incoming == old_incoming;
        }
      }
    }
  }

  lemma LatchAdded(b: Builder, r: Builder, loop: nat, incoming: seq<Incoming>, latch: Incoming)
    requires Ok(b) && PhiExact(b.blocks, loop, incoming) && latch.from == b.cur && loop < |b.blocks|
    requires |r.blocks| == |b.blocks| + 1 && r.blocks[|b.blocks|].term == Open && Goes(r.blocks[b.cur].term, loop)
    requires forall k :: 0 <= k < |b.blocks| && k != b.cur ==> r.blocks[k].term == b.blocks[k].term
    ensures PhiExact(r.blocks, loop, incoming + [latch])
  {
    var all := incoming + [latch];
    forall k | 0 <= k < |r.blocks| ensures HasSource(all, k) <==> Goes(r.blocks[k].term, loop) {
      assert HasSource(all, k) <==> HasSource(incoming, k) || k == latch.from by {
        if HasSource(incoming, k) {
          var e :| e in incoming && e.from == k;
          assert e in all;
        }
        assert latch in all;
      }
    }
    assert !HasSource(incoming, b.cur);
    forall i | 0 <= i < |incoming| ensures incoming[i].from != b.cur { assert incoming[i] in incoming; }
  }

  // ----- codegen_primitive.cpp -----

  lemma {:induction false} UnrollMovesClosed(c: Cursor, bytes: nat, n: nat)
    requires Closed(c.b)
    ensures Closed(UnrollMoves(c, bytes, n).b)
    decreases n
  {
    hide Closed, Append, Bind, Extends;
    ClosedIsOk(c.b);
    if n > 0 {
      var b1 := Append(c.b, VMove(c.outbuf, c.inbuf, bytes));
      var b2 := Bind(b1, Add64(c.inbuf, Imm(bytes)));
      var b3 := Bind(b2, Add64(c.outbuf, Imm(bytes)));
      AppendClosed(c.b, VMove(c.outbuf, c.inbuf, bytes));
      BindClosed(b1, Add64(c.inbuf, Imm(bytes)));
      BindClosed(b2, Add64(c.outbuf, Imm(bytes)));
      UnrollMovesClosed(Cursor(b3, Reg(b1.next), Reg(b2.next)), bytes, n - 1);
    }
  }

  lemma ClosedIsOk(b: Builder)
    requires Closed(b)
    ensures Ok(b)
  {}

  lemma {:induction false} PostambleClosed(c: Cursor, size: nat, n: nat, vecsize: nat)
    requires Closed(c.b)
    ensures Closed(Postamble(c, size, n, vecsize).b)
    decreases vecsize
  {
    hide Closed, UnrollMoves, Extends, Product, Quotient, Remainder;
    ClosedIsOk(c.b);
    if vecsize > 0 {
      var d := UnrollMoves(c, Product(size, vecsize), Quotient(n, vecsize));
      UnrollMovesClosed(c, Product(size, vecsize), Quotient(n, vecsize));
      PostambleClosed(d, size, Remainder(n, vecsize), vecsize / 2);
    }
  }

  lemma CopyLoopClosed(b: Builder, inbuf: Operand, outbuf: Operand, vectors: nat)
    requires Closed(b)
    ensures Closed(CopyLoop(b, inbuf, outbuf, vectors).b)
  {
    hide Closed, UnrollMoves, Append, Bind, StartLoop, EndLoop, Extends;
    ClosedIsOk(b);
    var b1 := Bind(b, Add64(inbuf, Imm(vectors * SIMD_BYTES)));
    var b2 := StartLoop(b1, [inbuf, outbuf]);
    var c := UnrollMoves(Cursor(b2, Reg(b1.next), Reg(b1.next + 1)), SIMD_BYTES, COPY_LOOP_UNROLL);
    var b3 := Bind(c.b, Equal(c.inbuf, Reg(b.next)));
    BindClosed(b, Add64(inbuf, Imm(vectors * SIMD_BYTES)));
    StartLoopClosed(b1, [inbuf, outbuf]);
    UnrollMovesClosed(Cursor(b2, Reg(b1.next), Reg(b1.next + 1)), SIMD_BYTES, COPY_LOOP_UNROLL);
    BindClosed(c.b, Equal(c.inbuf, Reg(b.next)));
    ExtendsTransitive(b2, c.b, b3);
    LoopClosed(b1, [inbuf, outbuf], b3, Reg(c.b.next), [c.inbuf, c.outbuf]);
  }

  /** A loop around closed code is closed. */
  lemma LoopClosed(b: Builder, inits: seq<Operand>, body: Builder, cond: Operand, nexts: seq<Operand>)
    requires Ok(b) && Extends(StartLoop(b, inits), body) && |inits| == |nexts| && Closed(body)
    ensures CanEndLoop(body, |b.blocks|, nexts) && StartLoop(b, inits).cur == |b.blocks|
    ensures Closed(EndLoop(body, |b.blocks|, body.cur, cond, nexts))
  {
    hide Closed, StartLoop, EndLoop, Extends;
    LoopExtends(b, inits, body, body.cur, cond, nexts);
    EndLoopClosed(body, |b.blocks|, cond, nexts);
  }

  lemma EmitPrimitiveClosed(b: Builder, inbuf: Operand, n: Operand, outbuf: Operand, size: int)
    requires Closed(b) && ElementSize(size)
    ensures Closed(EmitPrimitive(b, inbuf, n, outbuf, size))
  {
    hide Closed, CopyLoop, Postamble, Append, Bind, Extends;
    ClosedIsOk(b);
    if n.Imm? {
      var count := if n.value >= 0 then n.value else 0;
      if UsesCopyLoop(count, size) {
        var vectors := VectorsToCopy(count, size);
        CopyLoopClosed(b, inbuf, outbuf, vectors);
        PostambleClosed(CopyLoop(b, inbuf, outbuf, vectors), size, count - vectors * VectorSize(size),
                        VectorSize(size));
      } else {
        PostambleClosed(Cursor(b, inbuf, outbuf), size, count, VectorSize(size));
      }
    } else {
      var b1 := Bind(b, ZExt(n));
      var b2 := Bind(b1, Mul64(Imm(size), Reg(b.next)));
      BindClosed(b, ZExt(n));
      BindClosed(b1, Mul64(Imm(size), Reg(b.next)));
      AppendClosed(b2, MemCpy(outbuf, inbuf, Reg(b1.next)));
    }
  }

  lemma EmitPrimitiveResizedClosed(b: Builder, inbuf: Operand, n: Operand, outbuf: Operand, size: int, extent: int)
    requires Closed(b)
    ensures Closed(EmitPrimitiveResized(b, inbuf, n, outbuf, size, extent))
  {
    hide Closed, Append, Bind, StartLoop, EndLoop, Extends;
    ClosedIsOk(b);
    var inits := [inbuf, outbuf, n];
    var b1 := StartLoop(b, inits);
    var copy := MemCpy(Reg(b.next + 1), Reg(b.next), Imm(size));
    var b2 := Append(b1, copy);
    var e3, e4, e5 := Add64(Reg(b.next), Imm(extent)), Add64(Reg(b.next + 1), Imm(size)),
        Sub32(Reg(b.next + 2), Imm(1));
    var b3 := Bind(b2, e3);
    var b4 := Bind(b3, e4);
    var b5 := Bind(b4, e5);
    var e6 := Equal(Reg(b4.next), Imm(0));
    var b6 := Bind(b5, e6);
    StartLoopClosed(b, inits);
    AppendClosed(b1, copy);
    BindClosed(b2, e3); BindClosed(b3, e4); BindClosed(b4, e5); BindClosed(b5, e6);
    ExtendsTransitive(b1, b2, b3); ExtendsTransitive(b1, b3, b4); ExtendsTransitive(b1, b4, b5);
    ExtendsTransitive(b1, b5, b6);
    LoopClosed(b, inits, b6, Reg(b5.next), [Reg(b2.next), Reg(b3.next), Reg(b4.next)]);
  }

  // ----- when code stays in its block -----

  /** The code of n items of t is straight-line code. */
  predicate Straight(t: Datatype, n: Operand) {
    (t.Primitive? && !(n.Imm? && n.value >= 0 && UsesCopyLoop(n.value, PrimitiveSize(t.prim))))
    || (t.Resized? && (t.base.IndexedBlock? || t.base.HIndexed? || t.base.Struct? || t.base.Resized?))
  }

  /** Anything that ends with a loop ends in a new block. */
  ghost predicate Leaves(b: Builder, r: Builder) { Ok(b) && r.cur >= |b.blocks| }

  lemma StraightStays(t: Datatype, pack: bool, b: Builder, inbuf: Operand, n: Operand, outbuf: Operand)
    requires Ok(b)
    ensures Emit(t, pack, b, inbuf, n, outbuf).cur == b.cur <==> Straight(t, n)
  {
    hide EmitContiguous, EmitVector, EmitTable, EmitIndexed, EmitPrimitiveResized, Extends, EmitPrimitive;
    match t
    case Primitive(p) => PrimitiveStays(b, inbuf, n, outbuf, PrimitiveSize(p));
    case _ =>
      if !Straight(t, n) { NestedLeaves(t, pack, b, inbuf, n, outbuf); }
  }

  lemma NestedLeaves(t: Datatype, pack: bool, b: Builder, inbuf: Operand, n: Operand, outbuf: Operand)
    requires Ok(b) && !t.Primitive? && !Straight(t, n)
    ensures Leaves(b, Emit(t, pack, b, inbuf, n, outbuf))
  {
    hide EmitContiguous, EmitVector, EmitTable, EmitIndexed, EmitPrimitiveResized, Extends, Size, Extent, Leaves;
    var inInc, outInc := if pack then Extent(t) else Size(t), if pack then Size(t) else Extent(t);
    match t
    case Contiguous(count, base) => ContiguousLeaves(b, pack, inbuf, n, outbuf, base, inInc, outInc, count);
    case Vector(_, blocklen, stride, base) =>
      StridedLeaves(b, pack, inbuf, n, outbuf, base, blocklen, Extent(base) * stride, inInc, outInc);
    case HVector(_, blocklen, stride, base) =>
      StridedLeaves(b, pack, inbuf, n, outbuf, base, blocklen, stride, inInc, outInc);
    case IndexedBlock(blocklen, displs, base) =>
      if |displs| > IDXB_LOOP_THRESHOLD {
        TableLeaves(b, pack, inbuf, n, outbuf, Extent(t), Size(t), blocklen, base, DisplacementTable(displs, base));
      } else {
        IndexedLeaves(b, pack, inbuf, n, outbuf, Extent(t), UnrolledFields(blocklen, displs, base));
      }
    case HIndexed(entries, base) => IndexedLeaves(b, pack, inbuf, n, outbuf, Extent(t), EntryFields(entries, base));
    case Struct(fields) => IndexedLeaves(b, pack, inbuf, n, outbuf, Extent(t), fields);
    case Resized(_, extent, base) =>
      var size := Size(base);
      var inInc, outInc := if pack then extent else size, if pack then size else extent;
      match base
      case Primitive(_) => ResizedLeaves(b, inbuf, n, outbuf, size, extent);
      case Contiguous(count, inner) => ContiguousLeaves(b, true, inbuf, n, outbuf, inner, extent, size, count);
      case Vector(_, blocklen, stride, inner) =>
        StridedLeaves(b, pack, inbuf, n, outbuf, inner, blocklen, Extent(inner) * stride, inInc, outInc);
      case HVector(_, blocklen, stride, inner) =>
        StridedLeaves(b, pack, inbuf, n, outbuf, inner, blocklen, stride, inInc, outInc);
  }

  lemma PrimitiveStays(b: Builder, inbuf: Operand, n: Operand, outbuf: Operand, size: int)
    requires Ok(b) && ElementSize(size)
    ensures EmitPrimitive(b, inbuf, n, outbuf, size).cur == b.cur
       <==> !(n.Imm? && n.value >= 0 && UsesCopyLoop(n.value, size))
  {
    if n.Imm? && n.value >= 0 && UsesCopyLoop(n.value, size) {
      CopyLoopLeaves(b, inbuf, outbuf, VectorsToCopy(n.value, size));
    }
  }

  lemma CopyLoopLeaves(b: Builder, inbuf: Operand, outbuf: Operand, vectors: nat)
    requires Ok(b)
    ensures Leaves(b, CopyLoop(b, inbuf, outbuf, vectors).b)
  {
    hide UnrollMoves;
  }

  lemma ContiguousLeaves(b: Builder, pack: bool, inbuf: Operand, n: Operand, outbuf: Operand,
                         base: Datatype, inInc: int, outInc: int, count: int)
    requires Ok(b)
    ensures Leaves(b, EmitContiguous(b, pack, inbuf, n, outbuf, base, inInc, outInc, count))
  {
    hide Emit, Append;
  }

  lemma StridedLeaves(b: Builder, pack: bool, inbuf: Operand, n: Operand, outbuf: Operand, base: Datatype,
                      blocklen: int, dataStride: int, inInc: int, outInc: int)
    requires Ok(b)
    ensures Leaves(b, EmitStrided(b, pack, inbuf, n, outbuf, base, blocklen, dataStride, inInc, outInc))
  {
    hide VectorInner, Append;
  }

  lemma IndexedLeaves(b: Builder, pack: bool, inbuf: Operand, n: Operand, outbuf: Operand, extent: int,
                      fields: seq<Field>)
    requires Ok(b)
    ensures Leaves(b, EmitIndexed(b, pack, inbuf, n, outbuf, extent, fields))
  {
    hide EmitBlocks, Append;
  }

  lemma TableLeaves(b: Builder, pack: bool, inbuf: Operand, n: Operand, outbuf: Operand, extent: int, size: int,
                    blocklen: int, base: Datatype, table: seq<int>)
    requires Ok(b)
    ensures Leaves(b, EmitTable(b, pack, inbuf, n, outbuf, extent, size, blocklen, base, table))
  {
    hide TableInner, Append;
  }

  lemma ResizedLeaves(b: Builder, inbuf: Operand, n: Operand, outbuf: Operand, size: int, extent: int)
    requires Ok(b)
    ensures Leaves(b, EmitPrimitiveResized(b, inbuf, n, outbuf, size, extent))
  {
    hide Append;
  }

  // ----- broken phis stay broken -----

  /** Block id is entered from block k, but one of its phis has no entry for k. */
  ghost predicate BrokenAt(b: Builder, id: nat, k: nat) {
    && id < |b.blocks| && k < |b.blocks| && Goes(b.blocks[k].term, id)
    && exists j :: 0 <= j < |b.blocks[id].phis| && !HasSource(b.blocks[id].phis[j].incoming, k)
  }

  ghost predicate Broken(lo: nat, b: Builder) {
    Ok(b) && exists id: nat, k: nat :: lo <= id && BrokenAt(b, id, k)
  }

  lemma BrokenIsNotClosed(lo: nat, b: Builder)
    requires Broken(lo, b)
    ensures !Closed(b)
  {
    var id: nat, k: nat :| lo <= id && BrokenAt(b, id, k);
    var j :| 0 <= j < |b.blocks[id].phis| && !HasSource(b.blocks[id].phis[j].incoming, k);
    assert !PhiExact(b.blocks, id, b.blocks[id].phis[j].incoming);
    assert !PhisExact(b.blocks, id);
  }

  lemma ExtendsBroken(lo: nat, b: Builder, r: Builder)
    requires Broken(lo, b) && Extends(b, r)
    ensures Broken(lo, r)
  {
    var id: nat, k: nat :| lo <= id && BrokenAt(b, id, k);
    assert k != b.cur && k < |b.blocks| && id < |b.blocks|;
    assert r.blocks[id].phis == b.blocks[id].phis && r.blocks[k].term == b.blocks[k].term;
    assert BrokenAt(r, id, k);
  }

  /** Closing an older loop mends nothing. */
  lemma EndLoopBroken(lo: nat, b: Builder, loop: nat, latch: nat, cond: Operand, nexts: seq<Operand>)
    requires Broken(lo, b) && CanEndLoop(b, loop, nexts) && loop < lo
    ensures Broken(lo, EndLoop(b, loop, latch, cond, nexts))
  {
    var r := EndLoop(b, loop, latch, cond, nexts);
    var id: nat, k: nat :| lo <= id && BrokenAt(b, id, k);
    assert k != b.cur && k < |b.blocks| && id < |b.blocks|;
    assert r.blocks[id].phis == b.blocks[id].phis && r.blocks[k].term == b.blocks[k].term;
    assert BrokenAt(r, id, k);
  }

  // ----- all generators -----

  /** Closed when `good`, with a broken phi in a block from `lo` on otherwise. */
  ghost predicate Sound(lo: nat, b: Builder, good: bool) {
    lo <= |b.blocks| && if good then Closed(b) else Broken(lo, b)
  }

  lemma SoundIsOk(lo: nat, b: Builder, good: bool)
    requires Sound(lo, b, good)
    ensures Ok(b) && lo <= |b.blocks|
  {}

  lemma BindSound(lo: nat, b: Builder, e: Expr, good: bool)
    requires Sound(lo, b, good)
    ensures Ok(b) && Sound(lo, Bind(b, e), good) && Extends(b, Bind(b, e))
  {
    hide Closed, Broken, Append;
    if good { ClosedIsOk(b); BindClosed(b, e); } else { BrokenIsOk(lo, b); ExtendsBroken(lo, b, Bind(b, e)); }
    BindGrows(b, e);
  }

  lemma BindGrows(b: Builder, e: Expr)
    requires Ok(b)
    ensures |Bind(b, e).blocks| == |b.blocks|
  {}

  lemma BrokenIsOk(lo: nat, b: Builder)
    requires Broken(lo, b)
    ensures Ok(b)
  {}

  lemma WeakenSound(lo: nat, hi: nat, b: Builder, good: bool)
    requires Sound(hi, b, good) && lo <= hi
    ensures Sound(lo, b, good)
  {}

  /** A loop around sound code, with the right latch. */
  lemma LoopSound(lo: nat, b: Builder, inits: seq<Operand>, body: Builder, cond: Operand, nexts: seq<Operand>,
                  good: bool)
    requires Ok(b) && lo <= |b.blocks| && Extends(StartLoop(b, inits), body) && |inits| == |nexts|
    requires Sound(|b.blocks| + 1, body, good)
    ensures CanEndLoop(body, |b.blocks|, nexts)
    ensures Sound(lo, EndLoop(body, |b.blocks|, body.cur, cond, nexts), good)
  {
    hide Closed, Broken, StartLoop, EndLoop, Extends;
    LoopExtends(b, inits, body, body.cur, cond, nexts);
    if good {
      LoopClosed(b, inits, body, cond, nexts);
    } else {
      EndLoopBroken(|b.blocks| + 1, body, |b.blocks|, body.cur, cond, nexts);
      WeakenBroken(lo, |b.blocks| + 1, EndLoop(body, |b.blocks|, body.cur, cond, nexts));
    }
  }

  lemma WeakenBroken(lo: nat, hi: nat, b: Builder)
    requires Broken(hi, b) && lo <= hi
    ensures Broken(lo, b)
  {}

  lemma StartLoopSound(b: Builder, inits: seq<Operand>)
    requires Closed(b)
    ensures Ok(b) && Sound(|b.blocks| + 1, StartLoop(b, inits), true)
  {
    hide Closed;
    ClosedIsOk(b);
    StartLoopClosed(b, inits);
  }

  /** The base of a long indexed block must be straight-line code. */
  predicate TablesStay(t: Datatype)
    decreases t, 0
  {
    match t
    case Primitive(_) => true
    case Contiguous(_, base) => TablesStay(base)
    case Vector(_, _, _, base) => TablesStay(base)
    case HVector(_, _, _, base) => TablesStay(base)
    case IndexedBlock(blocklen, displs, base) =>
      if |displs| > IDXB_LOOP_THRESHOLD then Straight(base, Imm(blocklen)) else displs == [] || TablesStay(base)
    case HIndexed(entries, base) => entries == [] || TablesStay(base)
    case Struct(fields) => TablesStayIn(fields)
    case Resized(_, _, base) =>
      match base
      case Contiguous(_, inner) => TablesStay(inner)
      case Vector(_, _, _, inner) => TablesStay(inner)
      case HVector(_, _, _, inner) => TablesStay(inner)
      case _ => true
  }

  predicate TablesStayIn(fields: seq<Field>)
    decreases fields, 0
  {
    if fields == [] then true
    else
      var f := fields[0];
      assert f.typ < f;
      TablesStay(f.typ) && TablesStayIn(fields[1..])
  }

  lemma {:induction false} UniformStay(fields: seq<Field>, base: Datatype)
    requires forall i :: 0 <= i < |fields| ==> fields[i].typ == base
    ensures TablesStayIn(fields) <==> fields == [] || TablesStay(base)
  {
    if fields != [] { UniformStay(fields[1..], base); }
  }

  lemma ContiguousSound(b: Builder, pack: bool, inbuf: Operand, n: Operand, outbuf: Operand,
                        base: Datatype, inInc: int, outInc: int, count: int)
    requires Closed(b)
    ensures Ok(b) && Sound(|b.blocks|, EmitContiguous(b, pack, inbuf, n, outbuf, base, inInc, outInc, count),
                           TablesStay(base))
    decreases Height(base), 1, 0
  {
    hide Closed, Broken, Sound, StartLoop, EndLoop, Emit, Bind, Extends, TablesStay;
    ClosedIsOk(b);
    var inits := [outbuf, inbuf, Imm(0)];
    var b1 := StartLoop(b, inits);
    var out1, in1, i := Reg(b.next), Reg(b.next + 1), Reg(b.next + 2);
    var b2 := Emit(base, pack, b1, in1, Imm(count), out1);
    var b3 := Bind(b2, Add64(out1, Imm(outInc)));
    var b4 := Bind(b3, Add64(in1, Imm(inInc)));
    var b5 := Bind(b4, Add32(i, Imm(1)));
    var b6 := Bind(b5, Equal(Reg(b4.next), n));
    var lo, good := |b.blocks| + 1, TablesStay(base);
    StartLoopClosed(b, inits);
    EmitSound(base, pack, b1, in1, Imm(count), out1);
    BindSound(lo, b2, Add64(out1, Imm(outInc)), good);
    BindSound(lo, b3, Add64(in1, Imm(inInc)), good);
    BindSound(lo, b4, Add32(i, Imm(1)), good);
    BindSound(lo, b5, Equal(Reg(b4.next), n), good);
    ExtendsTransitive(b1, b2, b3); ExtendsTransitive(b1, b3, b4); ExtendsTransitive(b1, b4, b5);
    ExtendsTransitive(b1, b5, b6);
    LoopSound(|b.blocks|, b, inits, b6, Reg(b5.next), [Reg(b2.next), Reg(b3.next), Reg(b4.next)], good);
  }

  lemma VectorInnerSound(b: Builder, pack: bool, out1: Operand, in1: Operand, limit: Operand,
                         base: Datatype, blocklen: int, inStride: int, outStride: int)
    requires Closed(b)
    ensures Ok(b)
    ensures Sound(|b.blocks|, VectorInner(b, pack, out1, in1, limit, base, blocklen, inStride, outStride),
                  TablesStay(base))
    decreases Height(base), 1, 0
  {
    hide Closed, Broken, Sound, StartLoop, EndLoop, Emit, Bind, Extends, TablesStay;
    ClosedIsOk(b);
    var inits := [out1, in1];
    var b1 := StartLoop(b, inits);
    var out2, in2 := Reg(b.next), Reg(b.next + 1);
    var b2 := Emit(base, pack, b1, in2, Imm(blocklen), out2);
    var b3 := Bind(b2, Add64(out2, Imm(outStride)));
    var b4 := Bind(b3, Add64(in2, Imm(inStride)));
    var test := Equal(if pack then Reg(b2.next) else Reg(b3.next), limit);
    var b5 := Bind(b4, test);
    var lo, good := |b.blocks| + 1, TablesStay(base);
    StartLoopClosed(b, inits);
    EmitSound(base, pack, b1, in2, Imm(blocklen), out2);
    BindSound(lo, b2, Add64(out2, Imm(outStride)), good);
    BindSound(lo, b3, Add64(in2, Imm(inStride)), good);
    BindSound(lo, b4, test, good);
    ExtendsTransitive(b1, b2, b3); ExtendsTransitive(b1, b3, b4); ExtendsTransitive(b1, b4, b5);
    LoopSound(|b.blocks|, b, inits, b5, Reg(b4.next), [Reg(b2.next), Reg(b3.next)], good);
  }

  lemma StridedSound(b: Builder, pack: bool, inbuf: Operand, n: Operand, outbuf: Operand, base: Datatype,
                     blocklen: int, dataStride: int, inInc: int, outInc: int)
    requires Closed(b)
    ensures Ok(b)
    ensures Sound(|b.blocks|, EmitStrided(b, pack, inbuf, n, outbuf, base, blocklen, dataStride, inInc, outInc),
                  TablesStay(base))
    decreases Height(base), 3, 0
  {
    hide Closed, Sound, EmitVector, TablesStay;
    ClosedIsOk(b);
    var packedStride := Size(base) * blocklen;
    VectorSound(b, pack, inbuf, n, outbuf, base, blocklen, if pack then dataStride else packedStride,
                if pack then packedStride else dataStride, inInc, outInc);
  }

  lemma VectorSound(b: Builder, pack: bool, inbuf: Operand, n: Operand, outbuf: Operand, base: Datatype,
                    blocklen: int, inStride: int, outStride: int, inInc: int, outInc: int)
    requires Closed(b)
    ensures Ok(b)
    ensures Sound(|b.blocks|, EmitVector(b, pack, inbuf, n, outbuf, base, blocklen, inStride, outStride, inInc, outInc),
                  TablesStay(base))
    decreases Height(base), 2, 0
  {
    hide Closed, Broken, Sound, StartLoop, EndLoop, VectorInner, Bind, Extends, TablesStay;
    ClosedIsOk(b);
    var inits := [outbuf, inbuf, Imm(0)];
    var b1 := StartLoop(b, inits);
    var out1, in1, i := Reg(b.next), Reg(b.next + 1), Reg(b.next + 2);
    var x := if pack then Add64(out1, Imm(outInc)) else Add64(in1, Imm(inInc));
    var y := if pack then Add64(in1, Imm(inInc)) else Add64(out1, Imm(outInc));
    var b2 := Bind(b1, x);
    var b3 := VectorInner(b2, pack, out1, in1, Reg(b1.next), base, blocklen, inStride, outStride);
    var b4 := Bind(b3, y);
    var b5 := Bind(b4, Add32(i, Imm(1)));
    var b6 := Bind(b5, Equal(Reg(b4.next), n));
    var nexts := if pack then [Reg(b1.next), Reg(b3.next), Reg(b4.next)]
                 else [Reg(b3.next), Reg(b1.next), Reg(b4.next)];
    var lo, good := |b.blocks| + 1, TablesStay(base);
    StartLoopClosed(b, inits);
    BindClosed(b1, x);
    BindGrows(b1, x);
    VectorInnerSound(b2, pack, out1, in1, Reg(b1.next), base, blocklen, inStride, outStride);
    BindSound(lo, b3, y, good);
    BindSound(lo, b4, Add32(i, Imm(1)), good);
    BindSound(lo, b5, Equal(Reg(b4.next), n), good);
    ExtendsTransitive(b1, b2, b3); ExtendsTransitive(b1, b3, b4); ExtendsTransitive(b1, b4, b5);
    ExtendsTransitive(b1, b5, b6);
    LoopSound(|b.blocks|, b, inits, b6, Reg(b5.next), nexts, good);
  }

  lemma {:induction false} BlocksSound(lo: nat, b: Builder, pack: bool, compact: Operand, scattered: Operand,
                                       fields: seq<Field>, good: bool)
    requires Sound(lo, b, good)
    ensures Ok(b) && Sound(lo, EmitBlocks(b, pack, compact, scattered, fields).0, good && TablesStayIn(fields))
    decreases FieldsHeight(fields), 1, |fields|
  {
    hide Closed, Broken, Sound, Emit, Bind, Extends, TablesStay;
    SoundIsOk(lo, b, good);
    if fields != [] {
      var f := fields[0];
      var b1 := Bind(b, Add64(scattered, Imm(f.displ)));
      var here := Reg(b.next);
      var x, y := if pack then here else compact, if pack then compact else here;
      var b2 := Emit(f.typ, pack, b1, x, Imm(f.blocklen), y);
      var e := Add64(compact, Imm(Size(f.typ) * f.blocklen));
      BindSound(lo, b, Add64(scattered, Imm(f.displ)), good);
      NextSound(lo, f.typ, pack, b1, x, Imm(f.blocklen), y, good);
      BindSound(lo, b2, e, good && TablesStay(f.typ));
      BlocksSound(lo, Bind(b2, e), pack, Reg(b2.next), scattered, fields[1..], good && TablesStay(f.typ));
    }
  }

  lemma NextSound(lo: nat, t: Datatype, pack: bool, b: Builder, inbuf: Operand, n: Operand, outbuf: Operand, good: bool)
    requires Sound(lo, b, good)
    ensures Ok(b) && Sound(lo, Emit(t, pack, b, inbuf, n, outbuf), good && TablesStay(t))
    decreases Height(t), 0, 1
  {
    hide Closed, Broken, Emit, Extends, TablesStay;
    SoundIsOk(lo, b, good);
    var r := Emit(t, pack, b, inbuf, n, outbuf);
    if good {
      EmitSound(t, pack, b, inbuf, n, outbuf);
      WeakenSound(lo, |b.blocks|, r, TablesStay(t));
    } else {
      ExtendsBroken(lo, b, r);
      ExtendsGrows(b, r);
    }
  }

  lemma ExtendsGrows(b: Builder, r: Builder)
    requires Extends(b, r)
    ensures |b.blocks| <= |r.blocks|
  {}

  lemma IndexedSound(b: Builder, pack: bool, inbuf: Operand, n: Operand, outbuf: Operand, extent: int,
                     fields: seq<Field>)
    requires Closed(b)
    ensures Ok(b) && Sound(|b.blocks|, EmitIndexed(b, pack, inbuf, n, outbuf, extent, fields), TablesStayIn(fields))
    decreases FieldsHeight(fields), 2, 0
  {
    hide Closed, Broken, Sound, StartLoop, EndLoop, EmitBlocks, Bind, Extends, TablesStayIn;
    ClosedIsOk(b);
    var compactbuf := if pack then outbuf else inbuf;
    var scatteredbuf := if pack then inbuf else outbuf;
    var b1 := Bind(b, ZExt(n));
    var b2 := Bind(b1, Mul64(Reg(b.next), Imm(extent)));
    var inits := [compactbuf, Imm(0)];
    var b3 := StartLoop(b2, inits);
    var compact, i := Reg(b2.next), Reg(b2.next + 1);
    var b4 := Bind(b3, Add64(scatteredbuf, i));
    var (b5, nextcompact) := EmitBlocks(b4, pack, compact, Reg(b3.next), fields);
    var b6 := Bind(b5, Add64(i, Imm(extent)));
    var b7 := Bind(b6, Equal(Reg(b5.next), Reg(b1.next)));
    var good := TablesStayIn(fields);
    BindClosed(b, ZExt(n)); BindGrows(b, ZExt(n));
    BindClosed(b1, Mul64(Reg(b.next), Imm(extent))); BindGrows(b1, Mul64(Reg(b.next), Imm(extent)));
    var lo := |b2.blocks| + 1;
    StartLoopSound(b2, inits);
    BindSound(lo, b3, Add64(scatteredbuf, i), true);
    BlocksSound(lo, b4, pack, compact, Reg(b3.next), fields, true);
    BindSound(lo, b5, Add64(i, Imm(extent)), good);
    BindSound(lo, b6, Equal(Reg(b5.next), Reg(b1.next)), good);
    ExtendsTransitive(b3, b4, b5); ExtendsTransitive(b3, b5, b6); ExtendsTransitive(b3, b6, b7);
    LoopSound(|b.blocks|, b2, inits, b7, Reg(b6.next), [nextcompact, Reg(b5.next)], good);
  }

  /** The table loop records its first block as latch, which is right iff its base stays there. */
  lemma TableInnerSound(b: Builder, pack: bool, contig1: Operand, noncontig1: Operand,
                        blocklen: int, base: Datatype, table: seq<int>)
    requires Closed(b)
    ensures Ok(b)
    ensures Sound(|b.blocks|, TableInner(b, pack, contig1, noncontig1, blocklen, base, table).0,
                  Straight(base, Imm(blocklen)))
    decreases Height(base), 1, 0
  {
    hide Closed, Broken, StartLoop, EndLoop, Emit, Bind, Extends, TablesStay, Straight;
    ClosedIsOk(b);
    var inits := [Imm(0), contig1];
    var b1 := StartLoop(b, inits);
    var i, contig2 := Reg(b.next), Reg(b.next + 1);
    var b2 := Bind(b1, Element(table, i));
    var b3 := Bind(b2, ZExt(Reg(b1.next)));
    var b4 := Bind(b3, Add64(noncontig1, Reg(b2.next)));
    var noncontig2 := Reg(b3.next);
    var x, y := if pack then noncontig2 else contig2, if pack then contig2 else noncontig2;
    var b5 := Emit(base, pack, b4, x, Imm(blocklen), y);
    var b6 := Bind(b5, Add64(contig2, Imm(blocklen * Extent(base))));
    var b7 := Bind(b6, Add64(i, Imm(1)));
    var b8 := Bind(b7, Equal(Reg(b6.next), Imm(|table|)));
    var nexts := [Reg(b6.next), Reg(b5.next)];
    ExtendsTransitive(b1, b2, b3); ExtendsTransitive(b1, b3, b4); ExtendsTransitive(b1, b4, b5);
    ExtendsTransitive(b1, b5, b6); ExtendsTransitive(b1, b6, b7); ExtendsTransitive(b1, b7, b8);
    StraightStays(base, pack, b4, x, Imm(blocklen), y);
    BindKeepsBlock(b1, Element(table, i)); BindKeepsBlock(b2, ZExt(Reg(b1.next)));
    BindKeepsBlock(b3, Add64(noncontig1, Reg(b2.next)));
    BindKeepsBlock(b5, Add64(contig2, Imm(blocklen * Extent(base)))); BindKeepsBlock(b6, Add64(i, Imm(1)));
    BindKeepsBlock(b7, Equal(Reg(b6.next), Imm(|table|)));
    if Straight(base, Imm(blocklen)) {
      StartLoopClosed(b, inits);
      BindClosed(b1, Element(table, i)); BindClosed(b2, ZExt(Reg(b1.next)));
      BindClosed(b3, Add64(noncontig1, Reg(b2.next)));
      StraightClosed(base, pack, b4, x, Imm(blocklen), y);
      BindClosed(b5, Add64(contig2, Imm(blocklen * Extent(base)))); BindClosed(b6, Add64(i, Imm(1)));
      BindClosed(b7, Equal(Reg(b6.next), Imm(|table|)));
      LoopClosed(b, inits, b8, Reg(b7.next), nexts);
      LoopGrows(b, inits, b8, b1.cur, Reg(b7.next), nexts);
    } else {
      WrongLatchBroken(b, inits, b8, Reg(b7.next), nexts);
    }
  }

  lemma BindKeepsBlock(b: Builder, e: Expr)
    requires Ok(b)
    ensures Bind(b, e).cur == b.cur
  {}

  lemma LoopGrows(b: Builder, inits: seq<Operand>, body: Builder, latch: nat, cond: Operand, nexts: seq<Operand>)
    requires Ok(b) && Extends(StartLoop(b, inits), body) && |inits| == |nexts|
    ensures CanEndLoop(body, |b.blocks|, nexts)
    ensures |EndLoop(body, |b.blocks|, latch, cond, nexts).blocks| >= |b.blocks|
      && StartLoop(b, inits).cur == |b.blocks|
  {
    LoopExtends(b, inits, body, latch, cond, nexts);
  }

  /** A loop whose body ends in another block than the recorded latch. */
  lemma WrongLatchBroken(b: Builder, inits: seq<Operand>, body: Builder, cond: Operand, nexts: seq<Operand>)
    requires Ok(b) && Extends(StartLoop(b, inits), body) && |inits| == |nexts| >= 1
    requires body.cur != StartLoop(b, inits).cur
    ensures CanEndLoop(body, |b.blocks|, nexts) && StartLoop(b, inits).cur == |b.blocks|
    ensures Sound(|b.blocks|, EndLoop(body, |b.blocks|, |b.blocks|, cond, nexts), false)
  {
    LoopExtends(b, inits, body, |b.blocks|, cond, nexts);
    var r := EndLoop(body, |b.blocks|, |b.blocks|, cond, nexts);
    var incoming := r.blocks[|b.blocks|].phis[0].incoming;
    assert incoming == [Incoming(inits[0], b.cur), Incoming(nexts[0], |b.blocks|)];
    assert !HasSource(incoming, body.cur);
    assert Goes(r.blocks[body.cur].term, |b.blocks|);
    assert BrokenAt(r, |b.blocks|, body.cur);
  }

  lemma StraightClosed(t: Datatype, pack: bool, b: Builder, inbuf: Operand, n: Operand, outbuf: Operand)
    requires Closed(b) && Straight(t, n)
    ensures Ok(b) && Closed(Emit(t, pack, b, inbuf, n, outbuf))
  {
    hide Closed, EmitPrimitive;
    ClosedIsOk(b);
    match t
    case Primitive(p) => EmitPrimitiveClosed(b, inbuf, n, outbuf, PrimitiveSize(p));
    case Resized(_, _, _) =>
  }

  lemma TableSound(b: Builder, pack: bool, inbuf: Operand, n: Operand, outbuf: Operand, extent: int, size: int,
                   blocklen: int, base: Datatype, table: seq<int>)
    requires Closed(b)
    ensures Ok(b) && Sound(|b.blocks|, EmitTable(b, pack, inbuf, n, outbuf, extent, size, blocklen, base, table),
                           Straight(base, Imm(blocklen)))
    decreases Height(base), 3, 0
  {
    hide Closed, Broken, Sound, TableOuter, Bind, Extends, Straight;
    ClosedIsOk(b);
    var compactbuf := if pack then outbuf else inbuf;
    var scatteredbuf := if pack then inbuf else outbuf;
    var b1 := Bind(b, ZExt(n));
    var b2 := Bind(b1, Mul64(Reg(b.next), Imm(size)));
    var b3 := Bind(b2, Add64(compactbuf, Reg(b1.next)));
    BindClosed(b, ZExt(n)); BindGrows(b, ZExt(n));
    BindClosed(b1, Mul64(Reg(b.next), Imm(size))); BindGrows(b1, Mul64(Reg(b.next), Imm(size)));
    BindClosed(b2, Add64(compactbuf, Reg(b1.next))); BindGrows(b2, Add64(compactbuf, Reg(b1.next)));
    TableOuterSound(b3, pack, compactbuf, scatteredbuf, Reg(b2.next), extent, blocklen, base, table);
  }

  lemma TableOuterSound(b: Builder, pack: bool, contig: Operand, noncontig: Operand, exit: Operand,
                        extent: int, blocklen: int, base: Datatype, table: seq<int>)
    requires Closed(b)
    ensures Ok(b)
    ensures Sound(|b.blocks|, TableOuter(b, pack, contig, noncontig, exit, extent, blocklen, base, table),
                  Straight(base, Imm(blocklen)))
    decreases Height(base), 2, 0
  {
    hide Closed, Broken, Sound, StartLoop, EndLoop, TableInner, Bind, Extends, Straight;
    ClosedIsOk(b);
    var inits := [contig, noncontig];
    var b1 := StartLoop(b, inits);
    var contig1, noncontig1 := Reg(b.next), Reg(b.next + 1);
    var (b2, nextcontig) := TableInner(b1, pack, contig1, noncontig1, blocklen, base, table);
    var b3 := Bind(b2, Add64(noncontig1, Imm(extent)));
    var b4 := Bind(b3, Equal(nextcontig, exit));
    var lo, good := |b.blocks| + 1, Straight(base, Imm(blocklen));
    StartLoopClosed(b, inits);
    TableInnerSound(b1, pack, contig1, noncontig1, blocklen, base, table);
    BindSound(lo, b2, Add64(noncontig1, Imm(extent)), good);
    BindSound(lo, b3, Equal(nextcontig, exit), good);
    ExtendsTransitive(b1, b2, b3); ExtendsTransitive(b1, b3, b4);
    LoopSound(|b.blocks|, b, inits, b4, Reg(b3.next), [nextcontig, Reg(b2.next)], good);
  }

  /** EMISSION COMPOSES, exactly for the trees whose table loops have straight-line bases. */
  lemma EmitSound(t: Datatype, pack: bool, b: Builder, inbuf: Operand, n: Operand, outbuf: Operand)
    requires Closed(b)
    ensures Ok(b) && Sound(|b.blocks|, Emit(t, pack, b, inbuf, n, outbuf), TablesStay(t))
    decreases Height(t), 0, 0
  {
    hide Closed, Broken, Sound, EmitContiguous, EmitStrided, EmitIndexed, EmitTable, EmitPrimitive, Extends, Size,
         Extent;
    ClosedIsOk(b);
    var inInc, outInc := if pack then Extent(t) else Size(t), if pack then Size(t) else Extent(t);
    match t
    case Primitive(p) =>
      EmitPrimitiveClosed(b, inbuf, n, outbuf, PrimitiveSize(p));
      ClosedIsSound(b, Emit(t, pack, b, inbuf, n, outbuf));
    case Contiguous(count, base) => ContiguousSound(b, pack, inbuf, n, outbuf, base, inInc, outInc, count);
    case Vector(_, blocklen, stride, base) =>
      StridedSound(b, pack, inbuf, n, outbuf, base, blocklen, Extent(base) * stride, inInc, outInc);
    case HVector(_, blocklen, stride, base) =>
      StridedSound(b, pack, inbuf, n, outbuf, base, blocklen, stride, inInc, outInc);
    case IndexedBlock(blocklen, displs, base) =>
      if |displs| > IDXB_LOOP_THRESHOLD {
        TableSound(b, pack, inbuf, n, outbuf, Extent(t), Size(t), blocklen, base, DisplacementTable(displs, base));
      } else {
        UniformFieldsHeight(UnrolledFields(blocklen, displs, base), base);
        UniformStay(UnrolledFields(blocklen, displs, base), base);
        IndexedSound(b, pack, inbuf, n, outbuf, Extent(t), UnrolledFields(blocklen, displs, base));
      }
    case HIndexed(entries, base) =>
      UniformFieldsHeight(EntryFields(entries, base), base);
      UniformStay(EntryFields(entries, base), base);
      IndexedSound(b, pack, inbuf, n, outbuf, Extent(t), EntryFields(entries, base));
    case Struct(fields) => IndexedSound(b, pack, inbuf, n, outbuf, Extent(t), fields);
    case Resized(_, extent, base) => ResizedSound(b, pack, inbuf, n, outbuf, t);
  }

  lemma ClosedIsSound(b: Builder, r: Builder)
    requires Closed(r) && Extends(b, r)
    ensures Sound(|b.blocks|, r, true)
  {}

  lemma ResizedSound(b: Builder, pack: bool, inbuf: Operand, n: Operand, outbuf: Operand, t: Datatype)
    requires Closed(b) && t.Resized?
    ensures Ok(b) && Sound(|b.blocks|, Emit(t, pack, b, inbuf, n, outbuf), TablesStay(t))
    decreases Height(t.base), 5, 0
  {
    hide Closed, Broken, Sound, EmitContiguous, EmitStrided, EmitPrimitiveResized, Extends, Size, Extent;
    ClosedIsOk(b);
    var extent, size := t.extent, Size(t.base);
    var inInc, outInc := if pack then extent else size, if pack then size else extent;
    match t.base
    case Primitive(_) =>
      EmitPrimitiveResizedClosed(b, inbuf, n, outbuf, size, extent);
      ClosedIsSound(b, EmitPrimitiveResized(b, inbuf, n, outbuf, size, extent));
    case Contiguous(count, inner) => ContiguousSound(b, true, inbuf, n, outbuf, inner, extent, size, count);
    case Vector(_, blocklen, stride, inner) =>
      StridedSound(b, pack, inbuf, n, outbuf, inner, blocklen, Extent(inner) * stride, inInc, outInc);
    case HVector(_, blocklen, stride, inner) =>
      StridedSound(b, pack, inbuf, n, outbuf, inner, blocklen, stride, inInc, outInc);
    case _ => ClosedIsSound(b, b);
  }

  lemma EmitClosedExact(t: Datatype, pack: bool, b: Builder, inbuf: Operand, n: Operand, outbuf: Operand)
    requires Closed(b)
    ensures Ok(b) && (Closed(Emit(t, pack, b, inbuf, n, outbuf)) <==> TablesStay(t))
  {
    hide Closed, Broken, Emit, TablesStay, Extends;
    EmitSound(t, pack, b, inbuf, n, outbuf);
    if !TablesStay(t) { BrokenIsNotClosed(|b.blocks|, Emit(t, pack, b, inbuf, n, outbuf)); }
  }

  /** Every emitted function is a complete control-flow graph, exactly under the same condition. */
  lemma FunctionComplete(t: Datatype, pack: bool)
    ensures Complete(Function(t, pack)) <==> TablesStay(t)
  {
    hide Emit, TablesStay, Extends, Closed, Broken, Complete;
    var b := Emit(t, pack, ENTRY, Reg(0), Reg(1), Reg(2));
    EntryClosed();
    EmitSound(t, pack, ENTRY, Reg(0), Reg(1), Reg(2));
    if TablesStay(t) {
      ClosedReturns(b, Function(t, pack));
    } else {
      BrokenReturns(1, b, Function(t, pack));
    }
  }

  /** The condition is part of what the generators need anyway. */
  lemma {:induction false} EmittableStays(t: Datatype)
    requires TablesSingle(t)
    ensures TablesStay(t)
    decreases t, 0
  {
    match t
    case Primitive(_) =>
    case IndexedBlock(_, displs, base) =>
      if |displs| > IDXB_LOOP_THRESHOLD {
        SingleNeedsNoLoop(PrimitiveSize(base.prim));
      } else {
        EmittableStays(base);
      }
    case Struct(fields) => EmittableFieldsStay(fields);
    case Resized(_, _, base) =>
      if base.Contiguous? || base.Vector? || base.HVector? { EmittableStays(base.base); }
    case _ => EmittableStays(t.base);
  }

  lemma {:induction false} EmittableFieldsStay(fields: seq<Field>)
    requires FieldsSingle(fields)
    ensures TablesStayIn(fields)
    decreases fields, 0
  {
    if fields != [] {
      var f := fields[0];
      assert f.typ < f;
      EmittableStays(f.typ);
      EmittableFieldsStay(fields[1..]);
    }
  }

  lemma EntryClosed()
    ensures Closed(ENTRY)
  {}

  lemma ClosedReturns(b: Builder, p: seq<Block>)
    requires Closed(b) && p == b.blocks[b.cur := b.blocks[b.cur].(term := Ret)]
    ensures Complete(p)
  {
    assert TargetsExist(b.blocks);
    assert forall k :: 0 <= k < |p| ==> p[k].phis == b.blocks[k].phis;
    forall id | 0 <= id < |p| ensures PhisExact(p, id) {
      assert PhisExact(b.blocks, id);
      forall j | 0 <= j < |p[id].phis| ensures PhiExact(p, id, p[id].phis[j].incoming) {
        assert PhiExact(b.blocks, id, b.blocks[id].phis[j].incoming);
      }
    }
  }

  lemma BrokenReturns(lo: nat, b: Builder, p: seq<Block>)
    requires Broken(lo, b) && p == b.blocks[b.cur := b.blocks[b.cur].(term := Ret)]
    ensures !Complete(p)
  {
    var id: nat, k: nat :| lo <= id && BrokenAt(b, id, k);
    assert k != b.cur && p[id].phis == b.blocks[id].phis && p[k].term == b.blocks[k].term;
    var j :| 0 <= j < |p[id].phis| && !HasSource(p[id].phis[j].incoming, k);
    assert !PhiExact(p, id, p[id].phis[j].incoming);
    assert !PhisExact(p, id);
  }
}
