/** Running the code of codegen_indexed.cpp that loops over a displacement table.  The outer loop has no
    counter: it exits when its packed pointer meets an address computed from the count and the stored size. */
module ExecTable {
  import opened Arithmetic
  import opened Datatypes
  import opened Wellformed
  import opened Machine
  import opened Builders
  import opened Transfers
  import opened Emission
  import opened Routes
  import opened ExecPrimitive
  import opened Execution
  import opened Calls
  import opened ExecIndexed

  predicate TableFits(blocklen: int, table: seq<int>) {
    && 1 <= blocklen <= INT32_MAX && 1 <= |table| <= INT32_MAX
    && forall j :: 0 <= j < |table| ==> 0 <= table[j] < W32
  }

  /** What the table loop needs: primitives that are copied without a loop. */
  predicate TableOk(base: Datatype, blocklen: int, table: seq<int>) {
    TableFits(blocklen, table) && base.Primitive? && !UsesCopyLoop(blocklen, PrimitiveSize(base.prim))
  }

  /** Then the base's code stays in its block. */
  lemma ShortCopyStays(base: Datatype, pack: bool, b: Builder, inbuf: Operand, blocklen: int, outbuf: Operand)
    requires Ok(b) && base.Primitive? && blocklen >= 1 && !UsesCopyLoop(blocklen, PrimitiveSize(base.prim))
    ensures Emit(base, pack, b, inbuf, Imm(blocklen), outbuf).cur == b.cur
  {}

  lemma SingleNeedsNoLoop(size: int)
    requires ElementSize(size)
    ensures !UsesCopyLoop(1, size)
  {
    if VectorsToCopy(1, size) >= COPY_LOOP_UNROLL { MulPositive(VectorsToCopy(1, size), VectorSize(size)); }
  }

  // ----- the inner loop, over the table -----

  datatype Table = Table(head: Builder, load: Builder, ext: Builder, place: Builder, body: Builder,
                         b1: Builder, b2: Builder, test: Builder)

  function TableLoop(b: Builder, pack: bool, contig1: Operand, noncontig1: Operand,
                     blocklen: int, base: Datatype, table: seq<int>): (l: Table)
    requires Ok(b)
    ensures Ok(l.head) && l.head.next == b.next + 2 && l.head.cur == |b.blocks|
    ensures l.head.blocks[l.head.cur].instrs == []
    ensures Ok(l.place) && l.place.next == b.next + 5 && l.place.cur == l.head.cur
  {
    var b1 := StartLoop(b, [Imm(0), contig1]);
    var b2 := Bind(b1, Element(table, Reg(b.next)));
    var b3 := Bind(b2, ZExt(Reg(b1.next)));
    var b4 := Bind(b3, Add64(noncontig1, Reg(b2.next)));
    var b5 := Emit(base, pack, b4, if pack then Reg(b3.next) else Reg(b.next + 1), Imm(blocklen),
                   if pack then Reg(b.next + 1) else Reg(b3.next));
    var b6 := Bind(b5, Add64(Reg(b.next + 1), Imm(blocklen * Extent(base))));
    var b7 := Bind(b6, Add64(Reg(b.next), Imm(1)));
    Table(b1, b2, b3, b4, b5, b6, b7, Bind(b7, Equal(Reg(b6.next), Imm(|table|))))
  }

  lemma TableIsBuilt(p: seq<Block>, b: Builder, pack: bool, contig1: Operand, noncontig1: Operand,
                     blocklen: int, base: Datatype, table: seq<int>)
    requires Ok(b) && Le(TableInner(b, pack, contig1, noncontig1, blocklen, base, table).0.blocks, p)
    ensures var l := TableLoop(b, pack, contig1, noncontig1, blocklen, base, table);
      var nexts := [Reg(l.b1.next), Reg(l.body.next)];
      && l.head == StartLoop(b, [Imm(0), contig1])
      && l.load == Bind(l.head, Element(table, Reg(b.next))) && l.ext == Bind(l.load, ZExt(Reg(l.head.next)))
      && l.place == Bind(l.ext, Add64(noncontig1, Reg(l.load.next)))
      && l.body == Emit(base, pack, l.place, if pack then Reg(l.ext.next) else Reg(b.next + 1), Imm(blocklen),
                        if pack then Reg(b.next + 1) else Reg(l.ext.next))
      && l.b1 == Bind(l.body, Add64(Reg(b.next + 1), Imm(blocklen * Extent(base))))
      && l.b2 == Bind(l.b1, Add64(Reg(b.next), Imm(1))) && l.test == Bind(l.b2, Equal(Reg(l.b1.next), Imm(|table|)))
      && Le(l.head.blocks, p) && Le(l.load.blocks, p) && Le(l.ext.blocks, p) && Le(l.place.blocks, p)
      && Le(l.body.blocks, p) && Le(l.b1.blocks, p) && Le(l.b2.blocks, p) && Le(l.test.blocks, p)
      && CanEndLoop(l.test, l.head.cur, nexts) && Heads(l.test, l.head.cur, b.cur, b.next, 2)
      && TableInner(b, pack, contig1, noncontig1, blocklen, base, table)
         == (EndLoop(l.test, l.head.cur, l.head.cur, Reg(l.b2.next), nexts), Reg(l.body.next))
      && l.test.cur == l.body.cur && (TableOk(base, blocklen, table) ==> l.body.cur == l.head.cur)
  {
    hide Extends, Le, Append, StartLoop, Emit, Bind;
    var l := TableLoop(b, pack, contig1, noncontig1, blocklen, base, table);
    var nexts := [Reg(l.b1.next), Reg(l.body.next)];
    if TableOk(base, blocklen, table) {
      ShortCopyStays(base, pack, l.place, if pack then Reg(l.ext.next) else Reg(b.next + 1), blocklen,
                     if pack then Reg(b.next + 1) else Reg(l.ext.next));
    }
    ExtendsTransitive(l.head, l.load, l.ext); ExtendsTransitive(l.head, l.ext, l.place);
    ExtendsTransitive(l.head, l.place, l.body); ExtendsTransitive(l.head, l.body, l.b1);
    ExtendsTransitive(l.head, l.b1, l.b2); ExtendsTransitive(l.head, l.b2, l.test);
    LoopExtends(b, [Imm(0), contig1], l.test, l.head.cur, Reg(l.b2.next), nexts);
    BeforeEndLoop(p, l.test, l.head.cur, l.head.cur, Reg(l.b2.next), nexts);
    Earlier(p, l.b2, l.test); Earlier(p, l.b1, l.b2); Earlier(p, l.body, l.b1); Earlier(p, l.place, l.body);
    Earlier(p, l.ext, l.place); Earlier(p, l.load, l.ext); Earlier(p, l.head, l.load);
  }

  /** At the head of the table loop, about to do entry j. */
  ghost predicate AtTable(regs: Registers, k: nat, table: seq<int>, j: nat, c: int) {
    k in regs && k + 1 in regs && regs[k] == j < |table| && regs[k + 1] == c && 0 <= c < W
  }

  lemma TablePlace(p: seq<Block>, b: Builder, pack: bool, contig1: Operand, noncontig1: Operand,
                   blocklen: int, base: Datatype, table: seq<int>, j: nat, c: int, conf: Conf)
    returns (conf': Conf)
    requires Ok(b) && TableFits(blocklen, table)
    requires Le(TableInner(b, pack, contig1, noncontig1, blocklen, base, table).0.blocks, p)
    requires Usable(conf.regs, noncontig1, b.next) && AtTable(conf.regs, b.next, table, j, c)
    ensures var l := TableLoop(b, pack, contig1, noncontig1, blocklen, base, table);
      && Done(p, l.head.next, l.head, l.place, conf, conf', []) && conf'.mem == conf.mem
      && l.ext.next == b.next + 4 && l.ext.next in conf'.regs
      && conf'.regs[l.ext.next] == Wrap(Ev(conf.regs, noncontig1) + table[j])
      && AtTable(conf'.regs, b.next, table, j, c)
  {
    hide Copy, Reaches, Le, Append, Bind, TableInner, TableLoop, At, Heads, CanEndLoop, Emit, StartLoop, EndLoop;
    var l := TableLoop(b, pack, contig1, noncontig1, blocklen, base, table);
    TableIsBuilt(p, b, pack, contig1, noncontig1, blocklen, base, table);
    DoneNothing(p, l.head, conf);
    var c0 := ThenLet(p, l.head.next, l.head, l.head, Element(table, Reg(b.next)), conf, conf, []);
    var c1 := ThenLet(p, l.head.next, l.head, l.load, ZExt(Reg(l.head.next)), conf, c0, []);
    conf' := ThenLet(p, l.head.next, l.head, l.ext, Add64(noncontig1, Reg(l.load.next)), conf, c1, []);
    assert Wrap32(table[j]) == table[j] && Wrap32(Wrap32(table[j])) == table[j];
  }

  lemma TablePass(p: seq<Block>, b: Builder, pack: bool, contig1: Operand, noncontig1: Operand,
                  blocklen: int, base: Datatype, table: seq<int>, j: nat, c: int, conf: Conf)
    returns (conf': Conf)
    requires Ok(b) && TableFits(blocklen, table) && Runs(p, base, pack)
    requires Le(TableInner(b, pack, contig1, noncontig1, blocklen, base, table).0.blocks, p)
    requires Usable(conf.regs, noncontig1, b.next) && AtTable(conf.regs, b.next, table, j, c)
    requires var s := Wrap(Ev(conf.regs, noncontig1) + table[j]);
      Ready(conf.mem, Along(RouteCopies(base, pack, blocklen), InOf(pack, s, c), OutOf(pack, s, c)))
    ensures var l := TableLoop(b, pack, contig1, noncontig1, blocklen, base, table);
      var s := Wrap(Ev(conf.regs, noncontig1) + table[j]);
      && Done(p, b.next, l.head, l.test, conf, conf',
              Along(RouteCopies(base, pack, blocklen), InOf(pack, s, c), OutOf(pack, s, c)))
      && l.body.next in conf'.regs && conf'.regs[l.body.next] == Wrap(c + blocklen * Extent(base))
      && l.b1.next in conf'.regs && conf'.regs[l.b1.next] == j + 1
      && l.b2.next in conf'.regs && conf'.regs[l.b2.next] == (if j + 1 == |table| then 1 else 0)
  {
    hide Runs, Ready, Along, RouteCopies, Copy, Reaches, Le, Append, Bind, TableInner, TableLoop, At, Heads,
         CanEndLoop, Emit, StartLoop, EndLoop, Done, Keeps, Extent, TableFits;
    var l := TableLoop(b, pack, contig1, noncontig1, blocklen, base, table);
    TableIsBuilt(p, b, pack, contig1, noncontig1, blocklen, base, table);
    var s := Wrap(Ev(conf.regs, noncontig1) + table[j]);
    var ts := Along(RouteCopies(base, pack, blocklen), InOf(pack, s, c), OutOf(pack, s, c));
    var c1 := TableBody(p, b, pack, contig1, noncontig1, blocklen, base, table, j, c, conf);
    var c2 := ThenAdd(p, b.next, l.head, l.body, b.next + 1, blocklen * Extent(base), conf, c1, ts);
    var c3 := ThenAdd(p, b.next, l.head, l.b1, b.next, 1, conf, c2, ts);
    conf' := ThenTest(p, b.next, l.head, l.b2, Reg(l.b1.next), Imm(|table|), conf, c3, ts);
    WrapWrap(blocklen * Extent(base), c);
    TableLength(blocklen, table);
  }

  lemma TableLength(blocklen: int, table: seq<int>)
    requires TableFits(blocklen, table)
    ensures |table| <= INT32_MAX
  {}

  /** The code of one block: the address of the entry, then the primitives. */
  lemma TableBody(p: seq<Block>, b: Builder, pack: bool, contig1: Operand, noncontig1: Operand,
                  blocklen: int, base: Datatype, table: seq<int>, j: nat, c: int, conf: Conf)
    returns (conf': Conf)
    requires Ok(b) && TableFits(blocklen, table) && Runs(p, base, pack)
    requires Le(TableInner(b, pack, contig1, noncontig1, blocklen, base, table).0.blocks, p)
    requires Usable(conf.regs, noncontig1, b.next) && AtTable(conf.regs, b.next, table, j, c)
    requires var s := Wrap(Ev(conf.regs, noncontig1) + table[j]);
      Ready(conf.mem, Along(RouteCopies(base, pack, blocklen), InOf(pack, s, c), OutOf(pack, s, c)))
    ensures var l := TableLoop(b, pack, contig1, noncontig1, blocklen, base, table);
      var s := Wrap(Ev(conf.regs, noncontig1) + table[j]);
      && Done(p, b.next, l.head, l.body, conf, conf',
              Along(RouteCopies(base, pack, blocklen), InOf(pack, s, c), OutOf(pack, s, c)))
      && AtTable(conf'.regs, b.next, table, j, c) && l.body.next >= b.next + 5
  {
    hide Runs, Ready, Along, RouteCopies, Copy, Reaches, Le, Append, Bind, TableInner, TableLoop, At, Heads,
         CanEndLoop, Emit, StartLoop, EndLoop, Done, Keeps, Extent;
    var l := TableLoop(b, pack, contig1, noncontig1, blocklen, base, table);
    TableIsBuilt(p, b, pack, contig1, noncontig1, blocklen, base, table);
    var s := Wrap(Ev(conf.regs, noncontig1) + table[j]);
    var ts := Along(RouteCopies(base, pack, blocklen), InOf(pack, s, c), OutOf(pack, s, c));
    var c0 := TablePlace(p, b, pack, contig1, noncontig1, blocklen, base, table, j, c, conf);
    conf' := RunBase(p, base, pack, l.place, if pack then Reg(l.ext.next) else Reg(b.next + 1), Imm(blocklen),
                     if pack then Reg(b.next + 1) else Reg(l.ext.next), c0);
    Kept(p, l.place.next, l.place, l.body, c0, conf', ts, Reg(b.next));
    Kept(p, l.place.next, l.place, l.body, c0, conf', ts, Reg(b.next + 1));
    ThenMoves(p, l.head.next, l.head, l.place, l.body, conf, c0, conf', ts);
    Weaken(p, l.head.next, b.next, l.head, l.body, conf, conf', ts);
  }

  /** The blocks from entry j on. */
  function Tail(table: seq<int>, blocklen: int, base: Datatype, j: nat): seq<Field>
    requires j <= |table|
  {
    TableFields(table, blocklen, base)[j..]
  }

  lemma NextEntry(table: seq<int>, blocklen: int, base: Datatype, pack: bool, j: nat, d: int, c: int)
    requires base.Primitive? && j < |table| && 0 <= c < W && 0 <= d < W
    ensures var s, c1 := Wrap(d + table[j]), Wrap(c + blocklen * Extent(base));
      Along(FieldsRoute(Tail(table, blocklen, base, j), pack), InOf(pack, d, c), OutOf(pack, d, c))
      == Along(RouteCopies(base, pack, blocklen), InOf(pack, s, c), OutOf(pack, s, c))
       + Along(FieldsRoute(Tail(table, blocklen, base, j + 1), pack), InOf(pack, d, c1), OutOf(pack, d, c1))
    ensures FieldsSize(Tail(table, blocklen, base, j))
         == blocklen * Extent(base) + FieldsSize(Tail(table, blocklen, base, j + 1))
  {
    hide Along, FieldsRoute, RouteCopies;
    var fields := Tail(table, blocklen, base, j);
    FirstBlock(fields, pack, d, c);
    assert fields[1..] == Tail(table, blocklen, base, j + 1);
    assert Size(base) == Extent(base);
  }

  /** From entry j to the end of the table: one block for each entry. */
  lemma TablePasses(p: seq<Block>, b: Builder, pack: bool, contig1: Operand, noncontig1: Operand,
                    blocklen: int, base: Datatype, table: seq<int>, j: nat, c: int, conf: Conf)
    returns (conf': Conf)
    requires Ok(b) && TableOk(base, blocklen, table) && Runs(p, base, pack)
    requires Le(TableInner(b, pack, contig1, noncontig1, blocklen, base, table).0.blocks, p)
    requires Usable(conf.regs, noncontig1, b.next) && 0 <= Ev(conf.regs, noncontig1) < W
    requires AtTable(conf.regs, b.next, table, j, c)
    requires var d := Ev(conf.regs, noncontig1);
      Ready(conf.mem, Along(FieldsRoute(Tail(table, blocklen, base, j), pack), InOf(pack, d, c), OutOf(pack, d, c)))
    ensures var l := TableLoop(b, pack, contig1, noncontig1, blocklen, base, table);
      var d := Ev(conf.regs, noncontig1);
      var r := TableInner(b, pack, contig1, noncontig1, blocklen, base, table);
      && Done(p, b.next, l.head, r.0, conf, conf',
              Along(FieldsRoute(Tail(table, blocklen, base, j), pack), InOf(pack, d, c), OutOf(pack, d, c)))
      && Def(conf'.regs, r.1) && Ev(conf'.regs, r.1) == Wrap(c + FieldsSize(Tail(table, blocklen, base, j)))
    decreases |table| - j
  {
    hide Runs, Ready, Along, RouteCopies, FieldsRoute, FieldsSize, Tail, Copy, Reaches, Le, Append, Bind, TableInner,
         TableLoop, At, Heads, CanEndLoop, Emit, StartLoop, EndLoop, Extent;
    var l := TableLoop(b, pack, contig1, noncontig1, blocklen, base, table);
    TableIsBuilt(p, b, pack, contig1, noncontig1, blocklen, base, table);
    var d := Ev(conf.regs, noncontig1);
    var s, c1 := Wrap(d + table[j]), Wrap(c + blocklen * Extent(base));
    var first := Along(RouteCopies(base, pack, blocklen), InOf(pack, s, c), OutOf(pack, s, c));
    var rest := Along(FieldsRoute(Tail(table, blocklen, base, j + 1), pack), InOf(pack, d, c1), OutOf(pack, d, c1));
    NextEntry(table, blocklen, base, pack, j, d, c);
    ReadyParts(conf.mem, first, rest);
    var conf1 := TablePass(p, b, pack, contig1, noncontig1, blocklen, base, table, j, c, conf);
    var nexts := [Reg(l.b1.next), Reg(l.body.next)];
    WrapWrap(c + blocklen * Extent(base), FieldsSize(Tail(table, blocklen, base, j + 1)));
    if j + 1 == |table| {
      conf' := conf1;
      ThenExit(p, b.next, l.head, l.test, l.head.cur, l.test.cur, Reg(l.b2.next), nexts, conf, conf1, first);
      NoMoreEntries(table, blocklen, base, pack, InOf(pack, d, c1), OutOf(pack, d, c1), first);
    } else {
      SetTwo(conf1.regs, b.next, nexts[0], nexts[1]);
      var conf2 := ThenRepeat(p, b.next, l.head, l.test, b.cur, Reg(l.b2.next), nexts, conf, conf1, first);
      conf' := TablePasses(p, b, pack, contig1, noncontig1, blocklen, base, table, j + 1, c1, conf2);
      Around(p, b.next, l.head, TableInner(b, pack, contig1, noncontig1, blocklen, base, table).0,
             conf, conf2, conf', first, rest);
    }
  }

  lemma NoMoreEntries(table: seq<int>, blocklen: int, base: Datatype, pack: bool, x: int, y: int, ts: seq<Transfer>)
    ensures Tail(table, blocklen, base, |table|) == [] && FieldsSize(Tail(table, blocklen, base, |table|)) == 0
    ensures ts + Along(FieldsRoute(Tail(table, blocklen, base, |table|), pack), x, y) == ts
  {}

  /** The route of one pass over the table, and the packed bytes of it. */
  function Row(table: seq<int>, blocklen: int, base: Datatype, pack: bool): seq<Hop> {
    FieldsRoute(TableFields(table, blocklen, base), pack)
  }

  function RowSize(table: seq<int>, blocklen: int, base: Datatype): int {
    FieldsSize(TableFields(table, blocklen, base))
  }

  lemma WholeTail(table: seq<int>, blocklen: int, base: Datatype, pack: bool)
    ensures FieldsRoute(Tail(table, blocklen, base, 0), pack) == Row(table, blocklen, base, pack)
    ensures FieldsSize(Tail(table, blocklen, base, 0)) == RowSize(table, blocklen, base)
  {
    assert Tail(table, blocklen, base, 0) == TableFields(table, blocklen, base);
  }

  lemma TableInnerRuns(p: seq<Block>, b: Builder, pack: bool, contig1: Operand, noncontig1: Operand,
                       blocklen: int, base: Datatype, table: seq<int>, conf: Conf)
    returns (conf': Conf)
    requires Ok(b) && TableOk(base, blocklen, table) && Runs(p, base, pack)
    requires Le(TableInner(b, pack, contig1, noncontig1, blocklen, base, table).0.blocks, p)
    requires Args(conf.regs, b.next, contig1, Imm(0), noncontig1)
    requires var d, c := Ev(conf.regs, noncontig1), Ev(conf.regs, contig1);
      Ready(conf.mem, Along(Row(table, blocklen, base, pack), InOf(pack, d, c), OutOf(pack, d, c)))
    ensures var d, c := Ev(conf.regs, noncontig1), Ev(conf.regs, contig1);
      var r := TableInner(b, pack, contig1, noncontig1, blocklen, base, table);
      && Done(p, b.next, b, r.0, conf, conf',
              Along(Row(table, blocklen, base, pack), InOf(pack, d, c), OutOf(pack, d, c)))
      && Def(conf'.regs, r.1) && Ev(conf'.regs, r.1) == Wrap(c + RowSize(table, blocklen, base))
  {
    hide Runs, Ready, Along, RouteCopies, FieldsRoute, FieldsSize, Row, RowSize, Tail, Copy, Reaches, Le, Append, Bind,
         TableInner, TableLoop, At, Heads, CanEndLoop, Emit, StartLoop, EndLoop, Extent;
    var l := TableLoop(b, pack, contig1, noncontig1, blocklen, base, table);
    var r := TableInner(b, pack, contig1, noncontig1, blocklen, base, table);
    var d, c := Ev(conf.regs, noncontig1), Ev(conf.regs, contig1);
    TableIsBuilt(p, b, pack, contig1, noncontig1, blocklen, base, table);
    WholeTail(table, blocklen, base, pack);
    DoneNothing(p, b, conf);
    SetTwo(conf.regs, b.next, Imm(0), contig1);
    var c1 := ThenStartLoop(p, b.next, b, b, [Imm(0), contig1], conf, conf, []);
    conf' := TablePasses(p, b, pack, contig1, noncontig1, blocklen, base, table, 0, c, c1);
    ThenLoop(p, b.next, b, l.head, r.0, conf, c1, conf',
             Along(Row(table, blocklen, base, pack), InOf(pack, d, c), OutOf(pack, d, c)));
  }

  // ----- the outer loop, over the items -----

  datatype Rows = Rows(head: Builder, row: Builder, next: Operand, step: Builder, test: Builder)

  function RowLoop(b: Builder, pack: bool, contig: Operand, noncontig: Operand, exit: Operand,
                   extent: int, blocklen: int, base: Datatype, table: seq<int>): (l: Rows)
    requires Ok(b)
    ensures Ok(l.head) && l.head.next == b.next + 2 && l.head.cur == |b.blocks|
    ensures l.head.blocks[l.head.cur].instrs == []
  {
    var b1 := StartLoop(b, [contig, noncontig]);
    var (b2, nextcontig) := TableInner(b1, pack, Reg(b.next), Reg(b.next + 1), blocklen, base, table);
    var b3 := Bind(b2, Add64(Reg(b.next + 1), Imm(extent)));
    Rows(b1, b2, nextcontig, b3, Bind(b3, Equal(nextcontig, exit)))
  }

  lemma RowsAreBuilt(p: seq<Block>, b: Builder, pack: bool, contig: Operand, noncontig: Operand, exit: Operand,
                     extent: int, blocklen: int, base: Datatype, table: seq<int>)
    requires Ok(b) && Le(TableOuter(b, pack, contig, noncontig, exit, extent, blocklen, base, table).blocks, p)
    ensures var l := RowLoop(b, pack, contig, noncontig, exit, extent, blocklen, base, table);
      var nexts := [l.next, Reg(l.row.next)];
      && l.head == StartLoop(b, [contig, noncontig])
      && (l.row, l.next) == TableInner(l.head, pack, Reg(b.next), Reg(b.next + 1), blocklen, base, table)
      && l.step == Bind(l.row, Add64(Reg(b.next + 1), Imm(extent))) && l.test == Bind(l.step, Equal(l.next, exit))
      && Le(l.head.blocks, p) && Le(l.row.blocks, p) && Le(l.step.blocks, p) && Le(l.test.blocks, p)
      && CanEndLoop(l.test, l.head.cur, nexts) && Heads(l.test, l.head.cur, b.cur, b.next, 2)
      && TableOuter(b, pack, contig, noncontig, exit, extent, blocklen, base, table)
         == EndLoop(l.test, l.head.cur, l.test.cur, Reg(l.step.next), nexts)
  {
    hide Extends, Le, Append, StartLoop, TableInner, Bind;
    var l := RowLoop(b, pack, contig, noncontig, exit, extent, blocklen, base, table);
    var nexts := [l.next, Reg(l.row.next)];
    ExtendsTransitive(l.head, l.row, l.step); ExtendsTransitive(l.head, l.step, l.test);
    LoopExtends(b, [contig, noncontig], l.test, l.test.cur, Reg(l.step.next), nexts);
    BeforeEndLoop(p, l.test, l.head.cur, l.test.cur, Reg(l.step.next), nexts);
    Earlier(p, l.step, l.test); Earlier(p, l.row, l.step); Earlier(p, l.head, l.row);
  }

  lemma RowPass(p: seq<Block>, b: Builder, pack: bool, contig: Operand, noncontig: Operand, exit: Operand,
                extent: int, blocklen: int, base: Datatype, table: seq<int>, c: int, d: int, conf: Conf)
    returns (conf': Conf)
    requires Ok(b) && TableOk(base, blocklen, table) && Runs(p, base, pack)
    requires Le(TableOuter(b, pack, contig, noncontig, exit, extent, blocklen, base, table).blocks, p)
    requires Head2(conf.regs, b.next, c, d) && Usable(conf.regs, exit, b.next)
    requires Ready(conf.mem, Along(Row(table, blocklen, base, pack), InOf(pack, d, c), OutOf(pack, d, c)))
    ensures var l := RowLoop(b, pack, contig, noncontig, exit, extent, blocklen, base, table);
      var c1 := Wrap(c + RowSize(table, blocklen, base));
      && Done(p, b.next, l.head, l.test, conf, conf',
              Along(Row(table, blocklen, base, pack), InOf(pack, d, c), OutOf(pack, d, c)))
      && Def(conf'.regs, l.next) && Ev(conf'.regs, l.next) == c1
      && l.row.next in conf'.regs && conf'.regs[l.row.next] == Wrap(d + extent)
      && l.step.next in conf'.regs && conf'.regs[l.step.next] == (if c1 == Ev(conf.regs, exit) then 1 else 0)
      && Usable(conf'.regs, exit, b.next) && Ev(conf'.regs, exit) == Ev(conf.regs, exit)
  {
    hide Runs, Ready, Along, Row, RowSize, Copy, Reaches, Le, Append, Bind, TableInner, At, Heads,
         CanEndLoop, StartLoop, EndLoop, RowLoop, TableOuter;
    var l := RowLoop(b, pack, contig, noncontig, exit, extent, blocklen, base, table);
    RowsAreBuilt(p, b, pack, contig, noncontig, exit, extent, blocklen, base, table);
    var ts := Along(Row(table, blocklen, base, pack), InOf(pack, d, c), OutOf(pack, d, c));
    var c1 := TableInnerRuns(p, l.head, pack, Reg(b.next), Reg(b.next + 1), blocklen, base, table, conf);
    Weaken(p, l.head.next, b.next, l.head, l.row, conf, c1, ts);
    var c2 := ThenAdd(p, b.next, l.head, l.row, b.next + 1, extent, conf, c1, ts);
    TableNextIsOld(l.head, pack, Reg(b.next), Reg(b.next + 1), blocklen, base, table);
    conf' := ThenTest(p, b.next, l.head, l.step, l.next, exit, conf, c2, ts);
    WrapWrap(extent, d);
  }

  /** The compact pointer after the inner loop is a register of the loop, older than its successor. */
  lemma TableNextIsOld(b: Builder, pack: bool, contig1: Operand, noncontig1: Operand,
                       blocklen: int, base: Datatype, table: seq<int>)
    requires Ok(b)
    ensures var r := TableInner(b, pack, contig1, noncontig1, blocklen, base, table);
      r.1.Reg? && r.1.id < r.0.next
  {}

  /** m items of the table, as the outer loop walks them. */
  function Items(table: seq<int>, blocklen: int, base: Datatype, pack: bool, extent: int, m: int): seq<Hop> {
    ExecIndexed.Items(Row(table, blocklen, base, pack), pack, extent, RowSize(table, blocklen, base), m)
  }

  /** The exit test after the kth pass from pointer c. */
  predicate Meets(c: int, size: nat, exit: int, k: nat) { Wrap(c + Times(size, k)) == exit }

  lemma NextMeets(c: int, size: nat, exit: int, k: nat)
    ensures Meets(Wrap(c + size), size, exit, k) <==> Meets(c, size, exit, k + 1)
    ensures Meets(c, size, exit, 1) <==> Wrap(c + size) == exit
  {
    WrapWrap(c + size, Times(size, k));
    assert Times(size, 0) == 0;
  }

  lemma NextRow(table: seq<int>, blocklen: int, base: Datatype, pack: bool, extent: nat, m: nat, d: int, c: int)
    requires m >= 1
    ensures var d1, c1 := Wrap(d + extent), Wrap(c + RowSize(table, blocklen, base));
      Along(Items(table, blocklen, base, pack, extent, m), InOf(pack, d, c), OutOf(pack, d, c))
      == Along(Row(table, blocklen, base, pack), InOf(pack, d, c), OutOf(pack, d, c))
       + Along(Items(table, blocklen, base, pack, extent, m - 1), InOf(pack, d1, c1), OutOf(pack, d1, c1))
    ensures m == 1 ==> (Along(Items(table, blocklen, base, pack, extent, m), InOf(pack, d, c), OutOf(pack, d, c))
                        == Along(Row(table, blocklen, base, pack), InOf(pack, d, c), OutOf(pack, d, c)))
    ensures Along(Items(table, blocklen, base, pack, extent, 0), InOf(pack, d, c), OutOf(pack, d, c)) == []
  {
    hide Along, Laps, Row, RowSize;
    var r, packed := Row(table, blocklen, base, pack), RowSize(table, blocklen, base);
    OneLap(r, OutStep(pack, extent, packed), InStep(pack, extent, packed), m, InOf(pack, d, c), OutOf(pack, d, c));
    NoLaps(r, OutStep(pack, extent, packed), InStep(pack, extent, packed), InOf(pack, d, c), OutOf(pack, d, c));
  }

  lemma NoLaps(r: seq<Hop>, to: int, from: int, x: int, y: int)
    ensures Along(Laps(r, to, from, 0), x, y) == []
  {}

  /** A pass after which the test fails leads back to the head. */
  lemma RowStep(p: seq<Block>, b: Builder, pack: bool, contig: Operand, noncontig: Operand, exit: Operand,
                extent: nat, blocklen: int, base: Datatype, table: seq<int>, c: int, d: int, conf: Conf)
    returns (conf': Conf)
    requires Ok(b) && TableOk(base, blocklen, table) && Runs(p, base, pack)
    requires Le(TableOuter(b, pack, contig, noncontig, exit, extent, blocklen, base, table).blocks, p)
    requires Head2(conf.regs, b.next, c, d) && Usable(conf.regs, exit, b.next)
    requires Ready(conf.mem, Along(Row(table, blocklen, base, pack), InOf(pack, d, c), OutOf(pack, d, c)))
    requires Wrap(c + RowSize(table, blocklen, base)) != Ev(conf.regs, exit)
    ensures var l := RowLoop(b, pack, contig, noncontig, exit, extent, blocklen, base, table);
      && Done(p, b.next, l.head, l.head, conf, conf',
              Along(Row(table, blocklen, base, pack), InOf(pack, d, c), OutOf(pack, d, c)))
      && Head2(conf'.regs, b.next, Wrap(c + RowSize(table, blocklen, base)), Wrap(d + extent))
      && Usable(conf'.regs, exit, b.next) && Ev(conf'.regs, exit) == Ev(conf.regs, exit)
      && conf'.mem == Copy(conf.mem, Along(Row(table, blocklen, base, pack), InOf(pack, d, c), OutOf(pack, d, c)))
  {
    hide *;
    var l := RowLoop(b, pack, contig, noncontig, exit, extent, blocklen, base, table);
    RowsAreBuilt(p, b, pack, contig, noncontig, exit, extent, blocklen, base, table);
    var ts := Along(Row(table, blocklen, base, pack), InOf(pack, d, c), OutOf(pack, d, c));
    var conf1 := RowPass(p, b, pack, contig, noncontig, exit, extent, blocklen, base, table, c, d, conf);
    conf' := BackToHead(p, b.next, l.head, l.test, b.cur, l.step.next, l.next, l.row.next, conf, conf1, ts);
    Kept(p, b.next, l.head, l.head, conf, conf', ts, exit);
    DoneMemory(p, b.next, l.head, l.head, conf, conf', ts);
  }

  /** Back to a head with two phis. */
  lemma BackToHead(p: seq<Block>, k: nat, head: Builder, test: Builder, pre: nat, cond: nat, x: Operand, y: nat,
                   conf: Conf, conf1: Conf, ts: seq<Transfer>)
    returns (conf': Conf)
    requires Done(p, k, head, test, conf, conf1, ts) && Heads(test, head.cur, pre, k, 2)
    requires head.cur < |head.blocks| && head.blocks[head.cur].instrs == []
    requires CanEndLoop(test, head.cur, [x, Reg(y)])
    requires Le(EndLoop(test, head.cur, test.cur, Reg(cond), [x, Reg(y)]).blocks, p)
    requires cond in conf1.regs && conf1.regs[cond] == 0
    requires Def(conf1.regs, x) && 0 <= Ev(conf1.regs, x) < W && y in conf1.regs && 0 <= conf1.regs[y] < W
    ensures Done(p, k, head, head, conf, conf', ts)
    ensures Head2(conf'.regs, k, Ev(conf1.regs, x), conf1.regs[y])
  {
    hide Copy, Reaches, Le, EndLoop, At, Heads, CanEndLoop, Done, Keeps;
    SetTwo(conf1.regs, k, x, Reg(y));
    conf' := ThenRepeat(p, k, head, test, pre, Reg(cond), [x, Reg(y)], conf, conf1, ts);
  }

  lemma UsableIsDefined(regs: Registers, o: Operand, k: nat)
    requires Usable(regs, o, k)
    ensures Def(regs, o)
  {}

  /** As long as the packed pointer has not met the exit address, the run is back at the head after every
      pass, with exactly that many items transferred. */
  lemma RowsGoOn(p: seq<Block>, b: Builder, pack: bool, contig: Operand, noncontig: Operand, exit: Operand,
                 extent: nat, blocklen: int, base: Datatype, table: seq<int>, m: nat, c: int, d: int, conf: Conf)
    returns (conf': Conf)
    requires Ok(b) && TableOk(base, blocklen, table) && Runs(p, base, pack) && RowSize(table, blocklen, base) >= 0
    requires Le(TableOuter(b, pack, contig, noncontig, exit, extent, blocklen, base, table).blocks, p)
    requires Head2(conf.regs, b.next, c, d) && Usable(conf.regs, exit, b.next)
    requires forall k: nat :: 1 <= k <= m ==> !Meets(c, RowSize(table, blocklen, base), Ev(conf.regs, exit), k)
    requires Ready(conf.mem, Along(Items(table, blocklen, base, pack, extent, m), InOf(pack, d, c), OutOf(pack, d, c)))
    ensures var l := RowLoop(b, pack, contig, noncontig, exit, extent, blocklen, base, table);
      && Done(p, b.next, l.head, l.head, conf, conf',
              Along(Items(table, blocklen, base, pack, extent, m), InOf(pack, d, c), OutOf(pack, d, c)))
    decreases m
  {
    hide *;
    var l := RowLoop(b, pack, contig, noncontig, exit, extent, blocklen, base, table);
    RowsAreBuilt(p, b, pack, contig, noncontig, exit, extent, blocklen, base, table);
    UsableIsDefined(conf.regs, exit, b.next);
    var size, e := RowSize(table, blocklen, base), Ev(conf.regs, exit);
    if m == 0 {
      conf' := conf;
      NextRow(table, blocklen, base, pack, extent, 1, d, c);
      DoneNothing(p, l.head, conf);
      Weaken(p, l.head.next, b.next, l.head, l.head, conf, conf, []);
    } else {
      var d1, c1 := Wrap(d + extent), Wrap(c + size);
      var first := Along(Row(table, blocklen, base, pack), InOf(pack, d, c), OutOf(pack, d, c));
      var rest := Along(Items(table, blocklen, base, pack, extent, m - 1), InOf(pack, d1, c1), OutOf(pack, d1, c1));
      NextRow(table, blocklen, base, pack, extent, m, d, c);
      ReadyParts(conf.mem, first, rest);
      NextMeets(c, size, e, 0);
      var conf1 := RowStep(p, b, pack, contig, noncontig, exit, extent, blocklen, base, table, c, d, conf);
      forall k: nat | 1 <= k <= m - 1 ensures !Meets(c1, size, e, k) { NextMeets(c, size, e, k); }
      conf' := RowsGoOn(p, b, pack, contig, noncontig, exit, extent, blocklen, base, table, m - 1, c1, d1, conf1);
      Around(p, b.next, l.head, l.head, conf, conf1, conf', first, rest);
    }
  }

  /** If the packed pointer first meets the exit address after m passes, the loop does m items and exits. */
  lemma RowsStop(p: seq<Block>, b: Builder, pack: bool, contig: Operand, noncontig: Operand, exit: Operand,
                 extent: nat, blocklen: int, base: Datatype, table: seq<int>, m: nat, c: int, d: int, conf: Conf)
    returns (conf': Conf)
    requires Ok(b) && TableOk(base, blocklen, table) && Runs(p, base, pack) && RowSize(table, blocklen, base) >= 0
    requires Le(TableOuter(b, pack, contig, noncontig, exit, extent, blocklen, base, table).blocks, p)
    requires Head2(conf.regs, b.next, c, d) && Usable(conf.regs, exit, b.next)
    requires m >= 1 && Meets(c, RowSize(table, blocklen, base), Ev(conf.regs, exit), m)
    requires forall k: nat :: 1 <= k < m ==> !Meets(c, RowSize(table, blocklen, base), Ev(conf.regs, exit), k)
    requires Ready(conf.mem, Along(Items(table, blocklen, base, pack, extent, m), InOf(pack, d, c), OutOf(pack, d, c)))
    ensures var l := RowLoop(b, pack, contig, noncontig, exit, extent, blocklen, base, table);
      Done(p, b.next, l.head, TableOuter(b, pack, contig, noncontig, exit, extent, blocklen, base, table), conf, conf',
           Along(Items(table, blocklen, base, pack, extent, m), InOf(pack, d, c), OutOf(pack, d, c)))
    decreases m
  {
    hide *;
    var l := RowLoop(b, pack, contig, noncontig, exit, extent, blocklen, base, table);
    RowsAreBuilt(p, b, pack, contig, noncontig, exit, extent, blocklen, base, table);
    UsableIsDefined(conf.regs, exit, b.next);
    var size, e := RowSize(table, blocklen, base), Ev(conf.regs, exit);
    var d1, c1 := Wrap(d + extent), Wrap(c + size);
    var first := Along(Row(table, blocklen, base, pack), InOf(pack, d, c), OutOf(pack, d, c));
    var rest := Along(Items(table, blocklen, base, pack, extent, m - 1), InOf(pack, d1, c1), OutOf(pack, d1, c1));
    NextRow(table, blocklen, base, pack, extent, m, d, c);
    ReadyParts(conf.mem, first, rest);
    NextMeets(c, size, e, 0);
    if m == 1 {
      conf' := RowPass(p, b, pack, contig, noncontig, exit, extent, blocklen, base, table, c, d, conf);
      LeaveLoop(p, b.next, l.head, l.test, l.step.next, [l.next, Reg(l.row.next)], conf, conf', first);
    } else {
      var conf1 := RowStep(p, b, pack, contig, noncontig, exit, extent, blocklen, base, table, c, d, conf);
      forall k: nat | 1 <= k < m - 1 ensures !Meets(c1, size, e, k) { NextMeets(c, size, e, k); }
      NextMeets(c, size, e, m - 1);
      conf' := RowsStop(p, b, pack, contig, noncontig, exit, extent, blocklen, base, table, m - 1, c1, d1, conf1);
      Around(p, b.next, l.head, TableOuter(b, pack, contig, noncontig, exit, extent, blocklen, base, table),
             conf, conf1, conf', first, rest);
    }
  }

  lemma LeaveLoop(p: seq<Block>, k: nat, head: Builder, test: Builder, cond: nat, nexts: seq<Operand>,
                  conf: Conf, conf1: Conf, ts: seq<Transfer>)
    requires Done(p, k, head, test, conf, conf1, ts) && CanEndLoop(test, head.cur, nexts)
    requires Le(EndLoop(test, head.cur, test.cur, Reg(cond), nexts).blocks, p)
    requires cond in conf1.regs && conf1.regs[cond] != 0
    ensures Done(p, k, head, EndLoop(test, head.cur, test.cur, Reg(cond), nexts), conf, conf1, ts)
  {
    hide Copy, Reaches, Le, EndLoop, At, CanEndLoop, Done, Keeps;
    ThenExit(p, k, head, test, head.cur, test.cur, Reg(cond), nexts, conf, conf1, ts);
  }

  // ----- the generator -----

  lemma EnterRows(p: seq<Block>, b: Builder, contig: Operand, noncontig: Operand, exit: Operand, conf: Conf)
    returns (conf': Conf)
    requires Ok(b) && Le(StartLoop(b, [contig, noncontig]).blocks, p)
    requires Args(conf.regs, b.next, contig, Imm(0), noncontig) && Usable(conf.regs, exit, b.next)
    ensures Done(p, b.next, b, StartLoop(b, [contig, noncontig]), conf, conf', []) && conf'.mem == conf.mem
    ensures Head2(conf'.regs, b.next, Ev(conf.regs, contig), Ev(conf.regs, noncontig))
    ensures Usable(conf'.regs, exit, b.next) && Ev(conf'.regs, exit) == Ev(conf.regs, exit)
  {
    hide Copy, Reaches, Le, StartLoop, At, Done, Keeps;
    DoneNothing(p, b, conf);
    SetTwo(conf.regs, b.next, contig, noncontig);
    conf' := ThenStartLoop(p, b.next, b, b, [contig, noncontig], conf, conf, []);
    Kept(p, b.next, b, StartLoop(b, [contig, noncontig]), conf, conf', [], exit);
  }

  /** The builder before the loops, whose last register is the exit address. */
  function Prelude(b: Builder, pack: bool, inbuf: Operand, n: Operand, outbuf: Operand, size: int): (r: Builder)
    requires Ok(b)
    ensures Ok(r) && r.next == b.next + 3
  {
    var b1 := Bind(b, ZExt(n));
    var b2 := Bind(b1, Mul64(Reg(b.next), Imm(size)));
    Bind(b2, Add64(CompactOf(pack, inbuf, outbuf), Reg(b1.next)))
  }

  lemma TableParts(p: seq<Block>, b: Builder, pack: bool, inbuf: Operand, n: Operand, outbuf: Operand,
                   extent: int, size: int, blocklen: int, base: Datatype, table: seq<int>)
    requires Ok(b) && Le(EmitTable(b, pack, inbuf, n, outbuf, extent, size, blocklen, base, table).blocks, p)
    ensures var b3 := Prelude(b, pack, inbuf, n, outbuf, size);
      && Le(b3.blocks, p) && EmitTable(b, pack, inbuf, n, outbuf, extent, size, blocklen, base, table)
         == TableOuter(b3, pack, CompactOf(pack, inbuf, outbuf), ScatteredOf(pack, inbuf, outbuf), Reg(b.next + 2),
                       extent, blocklen, base, table)
  {
    hide Append, Le, TableOuter, Extends;
    var b3 := Prelude(b, pack, inbuf, n, outbuf, size);
    Earlier(p, b3, TableOuter(b3, pack, CompactOf(pack, inbuf, outbuf), ScatteredOf(pack, inbuf, outbuf),
                              Reg(b.next + 2), extent, blocklen, base, table));
  }

  /** Up to the head of the outer loop: the exit address is the packed pointer plus count * size. */
  lemma EnterTable(p: seq<Block>, b: Builder, pack: bool, inbuf: Operand, n: Operand, outbuf: Operand,
                   size: nat, conf: Conf)
    returns (conf': Conf)
    requires Ok(b) && Le(Prelude(b, pack, inbuf, n, outbuf, size).blocks, p)
    requires Args(conf.regs, b.next, inbuf, n, outbuf) && size <= INT32_MAX
    ensures var b3 := Prelude(b, pack, inbuf, n, outbuf, size);
      && Done(p, b.next, b, b3, conf, conf', []) && conf'.mem == conf.mem
      && Args(conf'.regs, b3.next, CompactOf(pack, inbuf, outbuf), Imm(0), ScatteredOf(pack, inbuf, outbuf))
      && Ev(conf'.regs, inbuf) == Ev(conf.regs, inbuf) && Ev(conf'.regs, outbuf) == Ev(conf.regs, outbuf)
      && Usable(conf'.regs, Reg(b.next + 2), b3.next)
      && Ev(conf'.regs, Reg(b.next + 2))
         == Wrap(Ev(conf.regs, CompactOf(pack, inbuf, outbuf)) + Times(size, Ev(conf.regs, n)))
  {
    hide Copy, Reaches, Le, Append, At, Times, Extends;
    var compactbuf := CompactOf(pack, inbuf, outbuf);
    var b1 := Bind(b, ZExt(n));
    var b2 := Bind(b1, Mul64(Reg(b.next), Imm(size)));
    var b3 := Bind(b2, Add64(compactbuf, Reg(b1.next)));
    Earlier(p, b2, b3); Earlier(p, b1, b2);
    DoneNothing(p, b, conf);
    TotalFits(size, Ev(conf.regs, n));
    var c0 := ThenLet(p, b.next, b, b, ZExt(n), conf, conf, []);
    var c1 := ThenLet(p, b.next, b, b1, Mul64(Reg(b.next), Imm(size)), conf, c0, []);
    conf' := ThenLet(p, b.next, b, b2, Add64(compactbuf, Reg(b1.next)), conf, c1, []);
  }

  /** The head of the outer loop of the generator. */
  function TableHead(b: Builder, pack: bool, inbuf: Operand, n: Operand, outbuf: Operand, size: int): (r: Builder)
    requires Ok(b)
    ensures Ok(r) && r.next == b.next + 5
  {
    StartLoop(Prelude(b, pack, inbuf, n, outbuf, size),
              [CompactOf(pack, inbuf, outbuf), ScatteredOf(pack, inbuf, outbuf)])
  }

  /** The packed pointer meets the exit address after pass k. */
  predicate StopsAt(c: int, row: nat, size: nat, n: nat, k: nat) { Meets(c, row, Wrap(c + Times(size, n)), k) }

  /** What both runs below need. */
  ghost predicate TableCalled(p: seq<Block>, b: Builder, pack: bool, inbuf: Operand, n: Operand, outbuf: Operand,
                              extent: nat, size: nat, blocklen: int, base: Datatype, table: seq<int>, m: nat,
                              conf: Conf)
  {
    && Ok(b) && TableOk(base, blocklen, table) && Runs(p, base, pack) && RowSize(table, blocklen, base) >= 0
    && Le(EmitTable(b, pack, inbuf, n, outbuf, extent, size, blocklen, base, table).blocks, p)
    && Args(conf.regs, b.next, inbuf, n, outbuf) && size <= INT32_MAX
    && Ready(conf.mem, Along(Items(table, blocklen, base, pack, extent, m),
                             Ev(conf.regs, inbuf), Ev(conf.regs, outbuf)))
  }

  /** What follows at the head of the outer loop. */
  ghost predicate AtRows(p: seq<Block>, b: Builder, pack: bool, inbuf: Operand, n: Operand, outbuf: Operand,
                         extent: nat, size: nat, blocklen: int, base: Datatype, table: seq<int>,
                         conf: Conf, conf1: Conf)
  {
    && Ok(b) && Args(conf.regs, b.next, inbuf, n, outbuf) &&
    var b3, exit := Prelude(b, pack, inbuf, n, outbuf, size), Reg(b.next + 2);
    var compact, scattered := CompactOf(pack, inbuf, outbuf), ScatteredOf(pack, inbuf, outbuf);
    && RowLoop(b3, pack, compact, scattered, exit, extent, blocklen, base, table).head
       == TableHead(b, pack, inbuf, n, outbuf, size)
    && EmitTable(b, pack, inbuf, n, outbuf, extent, size, blocklen, base, table)
       == TableOuter(b3, pack, compact, scattered, exit, extent, blocklen, base, table)
    && Done(p, b.next, b, TableHead(b, pack, inbuf, n, outbuf, size), conf, conf1, []) && conf1.mem == conf.mem
    && Head2(conf1.regs, b3.next, Ev(conf.regs, compact), Ev(conf.regs, scattered))
    && Usable(conf1.regs, exit, b3.next)
    && Ev(conf1.regs, exit) == Wrap(Ev(conf.regs, compact) + Times(size, Ev(conf.regs, n)))
  }

  lemma ReachRows(p: seq<Block>, b: Builder, pack: bool, inbuf: Operand, n: Operand, outbuf: Operand,
                  extent: nat, size: nat, blocklen: int, base: Datatype, table: seq<int>, m: nat, conf: Conf)
    returns (conf1: Conf)
    requires TableCalled(p, b, pack, inbuf, n, outbuf, extent, size, blocklen, base, table, m, conf)
    ensures AtRows(p, b, pack, inbuf, n, outbuf, extent, size, blocklen, base, table, conf, conf1)
  {
    hide Ready, Along, Items, Copy, Reaches, Le, At, Times, TableOuter, EmitTable, TableOk, Prelude, Runs, TableInner,
         RowSize, StartLoop, Done, Keeps, Bind;
    var compact, scattered := CompactOf(pack, inbuf, outbuf), ScatteredOf(pack, inbuf, outbuf);
    var b3 := Prelude(b, pack, inbuf, n, outbuf, size);
    TableParts(p, b, pack, inbuf, n, outbuf, extent, size, blocklen, base, table);
    RowsAreBuilt(p, b3, pack, compact, scattered, Reg(b.next + 2), extent, blocklen, base, table);
    var c0 := EnterTable(p, b, pack, inbuf, n, outbuf, size, conf);
    conf1 := EnterRows(p, b3, compact, scattered, Reg(b.next + 2), c0);
    ThenMoves(p, b.next, b, b3, TableHead(b, pack, inbuf, n, outbuf, size), conf, c0, conf1, []);
  }

  /** If the pointer first meets the exit address after m passes, the code does exactly m items. */
  lemma TableStops(p: seq<Block>, b: Builder, pack: bool, inbuf: Operand, n: Operand, outbuf: Operand,
                   extent: nat, size: nat, blocklen: int, base: Datatype, table: seq<int>, m: nat, conf: Conf)
    returns (conf': Conf)
    requires TableCalled(p, b, pack, inbuf, n, outbuf, extent, size, blocklen, base, table, m, conf) && m >= 1
    requires var c := Ev(conf.regs, CompactOf(pack, inbuf, outbuf));
      && StopsAt(c, RowSize(table, blocklen, base), size, Ev(conf.regs, n), m)
      && forall k: nat :: 1 <= k < m ==> !StopsAt(c, RowSize(table, blocklen, base), size, Ev(conf.regs, n), k)
    ensures Done(p, b.next, b, EmitTable(b, pack, inbuf, n, outbuf, extent, size, blocklen, base, table), conf, conf',
                 Along(Items(table, blocklen, base, pack, extent, m), Ev(conf.regs, inbuf), Ev(conf.regs, outbuf)))
  {
    hide Ready, Along, Items, Copy, Reaches, Le, At, Times, TableOuter, EmitTable, TableOk, Prelude, Runs, TableInner,
         RowSize, StartLoop, Done, Keeps, Bind, Meets, RowLoop, Usable;
    var compact, scattered := CompactOf(pack, inbuf, outbuf), ScatteredOf(pack, inbuf, outbuf);
    var b3 := Prelude(b, pack, inbuf, n, outbuf, size);
    TableParts(p, b, pack, inbuf, n, outbuf, extent, size, blocklen, base, table);
    ArgsOf(conf.regs, b.next, inbuf, n, outbuf);
    var d, c := Ev(conf.regs, scattered), Ev(conf.regs, compact);
    var ts := Along(Items(table, blocklen, base, pack, extent, m), Ev(conf.regs, inbuf), Ev(conf.regs, outbuf));
    var c1 := ReachRows(p, b, pack, inbuf, n, outbuf, extent, size, blocklen, base, table, m, conf);
    var row, e := RowSize(table, blocklen, base), Wrap(c + Times(size, Ev(conf.regs, n)));
    forall k: nat | 1 <= k < m ensures !Meets(c, row, e, k) { assert !StopsAt(c, row, size, Ev(conf.regs, n), k); }
    conf' := RowsStop(p, b3, pack, compact, scattered, Reg(b.next + 2), extent, blocklen, base, table, m, c, d, c1);
    var head, r := TableHead(b, pack, inbuf, n, outbuf, size),
                   EmitTable(b, pack, inbuf, n, outbuf, extent, size, blocklen, base, table);
    Weaken(p, b3.next, b.next, head, r, c1, conf', ts);
    ThenLoop(p, b.next, b, head, r, conf, c1, conf', ts);
  }

  /** As long as it has not, the run comes back to the head with exactly the items of its passes done. */
  lemma TableGoesOn(p: seq<Block>, b: Builder, pack: bool, inbuf: Operand, n: Operand, outbuf: Operand,
                    extent: nat, size: nat, blocklen: int, base: Datatype, table: seq<int>, m: nat, conf: Conf)
    returns (conf': Conf)
    requires TableCalled(p, b, pack, inbuf, n, outbuf, extent, size, blocklen, base, table, m, conf)
    requires var c := Ev(conf.regs, CompactOf(pack, inbuf, outbuf));
      forall k: nat :: 1 <= k <= m ==> !StopsAt(c, RowSize(table, blocklen, base), size, Ev(conf.regs, n), k)
    ensures Done(p, b.next, b, TableHead(b, pack, inbuf, n, outbuf, size), conf, conf',
                 Along(Items(table, blocklen, base, pack, extent, m), Ev(conf.regs, inbuf), Ev(conf.regs, outbuf)))
  {
    hide Ready, Along, Items, Copy, Reaches, Le, At, Times, TableOuter, EmitTable, TableOk, Prelude, Runs, TableInner,
         RowSize, StartLoop, Done, Keeps, Bind, Meets, RowLoop, Usable;
    var compact, scattered := CompactOf(pack, inbuf, outbuf), ScatteredOf(pack, inbuf, outbuf);
    var b3 := Prelude(b, pack, inbuf, n, outbuf, size);
    TableParts(p, b, pack, inbuf, n, outbuf, extent, size, blocklen, base, table);
    ArgsOf(conf.regs, b.next, inbuf, n, outbuf);
    var d, c := Ev(conf.regs, scattered), Ev(conf.regs, compact);
    var ts := Along(Items(table, blocklen, base, pack, extent, m), Ev(conf.regs, inbuf), Ev(conf.regs, outbuf));
    var c1 := ReachRows(p, b, pack, inbuf, n, outbuf, extent, size, blocklen, base, table, m, conf);
    var row, e := RowSize(table, blocklen, base), Wrap(c + Times(size, Ev(conf.regs, n)));
    forall k: nat | 1 <= k <= m ensures !Meets(c, row, e, k) { assert !StopsAt(c, row, size, Ev(conf.regs, n), k); }
    conf' := RowsGoOn(p, b3, pack, compact, scattered, Reg(b.next + 2), extent, blocklen, base, table, m, c, d, c1);
    var head := TableHead(b, pack, inbuf, n, outbuf, size);
    Weaken(p, b3.next, b.next, head, head, c1, conf', ts);
    ThenLoop(p, b.next, b, head, head, conf, c1, conf', ts);
  }

  /** As long as k passes of b items' bytes stay below the size of the address space, the test after pass k
      succeeds if and only if k * b is the count. */
  lemma StopsAtExact(c: int, blocklen: nat, size: nat, n: nat, k: nat)
    requires 1 <= size <= INT32_MAX && n < W32 && Times(blocklen * size, k) < W
    ensures StopsAt(c, blocklen * size, size, n, k) <==> k * blocklen == n
  {
    hide Times;
    TotalFits(size, n);
    TimesIsProduct(size, n);
    TimesIsProduct(blocklen * size, k);
    MulAssoc(k, blocklen, size);
    MulNonNegative(k, blocklen * size);
    MulNonNegative(k, blocklen);
    if StopsAt(c, blocklen * size, size, n, k) { WrapInjective(c, Times(blocklen * size, k), Times(size, n)); }
    if k * blocklen > n { MulPositive(k * blocklen - n, size); MulDistributes(k * blocklen, n, size); }
    if k * blocklen < n { MulPositive(n - k * blocklen, size); MulDistributes(n, k * blocklen, size); }
  }
}
