/** The mutable IR builder: LLVM's operations on a function under construction, and the two moves
    every generator makes with them. */
module Building {
  import opened Machine
  import opened Builders

  class IRBuilder {
    var blocks: seq<Block>
    var cur: nat    // the insertion block
    var next: nat   // the next free register

    function State(): Builder
      reads this
    {
      Builder(blocks, cur, next)
    }

    predicate Valid()
      reads this
    {
      Ok(State())
    }

    /** An empty entry block; the arguments are registers 0, 1 and 2. */
    constructor ()
      ensures Valid() && State() == Builder([Block([], [], Open)], 0, 3)
    {
      blocks, cur, next := [Block([], [], Open)], 0, 3;
    }

    /** BasicBlock::Create. */
    method CreateBlock() returns (id: nat)
      modifies this
      ensures id == old(|blocks|) && State() == old(State()).(blocks := old(blocks) + [Block([], [], Open)])
    {
      id := |blocks|;
      blocks := blocks + [Block([], [], Open)];
    }

    method SetInsertPoint(id: nat)
      modifies this
      ensures State() == old(State()).(cur := id)
    {
      cur := id;
    }

    method CreateTerminator(t: Terminator)
      requires Valid()
      modifies this
      ensures State() == old(State()).(blocks := old(blocks[cur := blocks[cur].(term := t)]))
    {
      blocks := blocks[cur := blocks[cur].(term := t)];
    }

    /** CreatePHI and the first addIncoming. */
    method CreatePhi(value: Operand, from: nat) returns (phi: Operand)
      requires Valid() && blocks[cur].instrs == []
      modifies this
      ensures phi == Reg(old(next)) && next == old(next) + 1 && cur == old(cur)
      ensures blocks == old(blocks[cur := blocks[cur].(phis := blocks[cur].phis
                                                       + [Phi(next, [Incoming(value, from)])])])
    {
      phi := Reg(next);
      blocks := blocks[cur := blocks[cur].(phis := blocks[cur].phis + [Phi(next, [Incoming(value, from)])])];
      next := next + 1;
    }

    /** A later addIncoming, on phi number j of a block. */
    method AddBackEdge(block: nat, j: nat, value: Operand, from: nat)
      requires block < |blocks| && j < |blocks[block].phis|
      modifies this
      ensures cur == old(cur) && next == old(next)
      ensures var phi := old(blocks)[block].phis[j];
        blocks == old(blocks)[block := old(blocks)[block].(phis :=
          old(blocks)[block].phis[j := phi.(incoming := phi.incoming + [Incoming(value, from)])])]
    {
      var phis := blocks[block].phis;
      blocks := blocks[block := blocks[block].(phis := phis[j := phis[j].(incoming := phis[j].incoming
                                                                          + [Incoming(value, from)])])];
    }

    method Insert(i: Instr)
      requires Valid()
      modifies this
      ensures Valid() && State() == Append(old(State()), i)
    {
      blocks := blocks[cur := blocks[cur].(instrs := blocks[cur].instrs + [i])];
    }

    method Compute(e: Expr) returns (value: Operand)
      requires Valid()
      modifies this
      ensures Valid() && value == Reg(old(next)) && State() == Bind(old(State()), e)
    {
      value := Reg(next);
      Insert(Let(next, e));
      next := next + 1;
    }

    /** Opens a loop: a new block, a branch to it, and its phis with their initial values. */
    method Loop(inits: seq<Operand>) returns (loop: nat)
      requires Valid()
      modifies this
      ensures Valid() && State() == StartLoop(old(State()), inits) && loop == cur
    {
      ghost var b := State();
      var preheader := cur;
      loop := CreateBlock();
      CreateTerminator(Br(loop));
      SetInsertPoint(loop);
      assert LoopHeader(b, inits[..0]) == Block([], [], Open);
      assert blocks == b.blocks[preheader := b.blocks[preheader].(term := Br(loop))] + [Block([], [], Open)];
      for j := 0 to |inits|
        invariant State() == StartLoop(b, inits[..j]) && preheader == b.cur && loop == cur
      {
        var _ := CreatePhi(inits[j], preheader);
        HeaderGrows(b, inits, j);
      }
      assert inits[..|inits|] == inits;
    }

    /** Closes it: a new block, the conditional branch, and the back edges of the phis. */
    method Close(loop: nat, latch: nat, cond: Operand, nexts: seq<Operand>)
      requires CanEndLoop(State(), loop, nexts)
      modifies this
      ensures Valid() && State() == EndLoop(old(State()), loop, latch, cond, nexts)
    {
      ghost var b := State();
      var after := CreateBlock();
      CreateTerminator(CondBr(cond, after, loop));
      SetInsertPoint(after);
      ghost var ended := blocks;
      ghost var phis := b.blocks[loop].phis;
      assert ended == b.blocks[b.cur := b.blocks[b.cur].(term := CondBr(cond, after, loop))] + [Block([], [], Open)];
      assert BackEdges(phis, latch, nexts, 0) == phis;
      for j := 0 to |nexts|
        invariant cur == after == |b.blocks| && next == b.next && |blocks| == |ended|
        invariant blocks == ended[loop := ended[loop].(phis := BackEdges(phis, latch, nexts, j))]
      {
        BackEdgeAdded(phis, latch, nexts, j);
        AddBackEdge(loop, j, nexts[j], latch);
      }
      assert BackEdges(phis, latch, nexts, |nexts|) == AddIncoming(phis, latch, nexts) by {
        assert phis[..|nexts|] == phis && nexts[..|nexts|] == nexts;
      }
    }
  }

  lemma HeaderGrows(b: Builder, inits: seq<Operand>, j: nat)
    requires Ok(b) && j < |inits|
    ensures LoopHeader(b, inits[..j + 1]).phis
         == LoopHeader(b, inits[..j]).phis + [Phi(b.next + j, [Incoming(inits[j], b.cur)])]
  {}

  /** The phis of a loop when the first j have their back edges. */
  function BackEdges(phis: seq<Phi>, latch: nat, nexts: seq<Operand>, j: nat): seq<Phi>
    requires |phis| == |nexts| && j <= |nexts|
  {
    AddIncoming(phis[..j], latch, nexts[..j]) + phis[j..]
  }

  lemma BackEdgeAdded(phis: seq<Phi>, latch: nat, nexts: seq<Operand>, j: nat)
    requires |phis| == |nexts| && j < |nexts|
    ensures var before := BackEdges(phis, latch, nexts, j);
      && |before| == |phis| && before[j] == phis[j]
      && BackEdges(phis, latch, nexts, j + 1)
         == before[j := phis[j].(incoming := phis[j].incoming + [Incoming(nexts[j], latch)])]
  {}
}
